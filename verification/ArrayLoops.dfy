/** The loops of the printer and of the parser, proved against the functions. */
module ArrayLoops {
  import opened Basics
  import opened ArrayText

  /** `find_first_of( "\\\"" )`, and `strpbrk` with the same characters. */
  method FindEscaped(s: string) returns (n: Option<nat>)
    ensures n.None? ==> forall i :: 0 <= i < |s| ==> !Escaped(s[i])
    ensures n.Some? ==> n.value < |s| && Escaped(s[n.value]) && forall i :: 0 <= i < n.value ==> !Escaped(s[i])
  {
    for i := 0 to |s|
      invariant forall j :: 0 <= j < i ==> !Escaped(s[j])
    {
      if Escaped(s[i]) {
        return Some(i);
      }
    }
    return None;
  }

  /** Characters that need no escape stand for themselves. */
  lemma {:induction false} EscapeQuotedRun(run: string, rest: string)
    requires forall i :: 0 <= i < |run| ==> !Escaped(run[i])
    ensures EscapeQuoted(run + rest) == run + EscapeQuoted(rest)
  {
    if run == [] {
      assert run + rest == rest;
    } else {
      assert (run + rest)[1..] == run[1..] + rest;
      EscapeQuotedRun(run[1..], rest);
    }
  }

  /** The text in front of the next escape, the escape, and what follows it. */
  lemma {:induction false} EscapeQuotedPass(s: string, n: nat)
    requires n < |s| && Escaped(s[n]) && forall i :: 0 <= i < n ==> !Escaped(s[i])
    ensures EscapeQuoted(s) == s[..n] + (Unit(s[n]) + EscapeQuoted(s[n + 1..]))
  {
    EscapeQuotedRun(s[..n], s[n..]);
    assert s[..n] + s[n..] == s && s[n..][1..] == s[n + 1..];
  }

  /** The loop of `array_append` between the quotes. */
  method AppendEscaped(buffer: string, data: string) returns (result: string)
    ensures result == buffer + EscapeQuoted(data)
  {
    result := buffer;
    var rest := data;
    while true
      invariant result + EscapeQuoted(rest) == buffer + EscapeQuoted(data)
      decreases |rest|
    {
      var n := FindEscaped(rest);
      if n.None? {
        EscapeQuotedRun(rest, []);
        assert rest + [] == rest;
        result := result + rest;
        return;
      }
      EscapeQuotedPass(rest, n.value);
      ghost var unit, more := Unit(rest[n.value]), EscapeQuoted(rest[n.value + 1..]);
      Associative(result, rest[..n.value], unit + more);
      Associative(result + rest[..n.value], unit, more);
      result := result + rest[..n.value];
      result := result + ['\\', rest[n.value]];
      rest := rest[n.value + 1..];
    }
  }

  method ArrayAppend(buffer: string, data: string) returns (result: string)
    ensures result == buffer + Appended(data)
  {
    if data == [] {
      result := buffer + ['"', '"'];
      assert Appended(data) == ['"'] + ([] + ['"']) == ['"', '"'];
    } else if data == NULL {
      result := buffer + "\"NULL\"";
      EscapeQuotedRun(NULL, []);
      assert NULL + [] == NULL;
    } else if exists i :: 0 <= i < |data| && NeedsQuotes(data[i]) {
      result := AppendEscaped(buffer + ['"'], data);
      Associative(buffer, ['"'], EscapeQuoted(data));
      Associative(buffer, ['"'] + EscapeQuoted(data), ['"']);
      Associative(['"'], EscapeQuoted(data), ['"']);
      result := result + ['"'];
    } else {
      result := buffer + data;
    }
  }

  lemma {:induction false} PrintedItemsAppend(vs: seq<Value>, v: Value, end: char)
    requires vs != []
    ensures PrintedItems(vs + [v], end) == PrintedItems(vs, ',') + (Printed(v) + [end])
    decreases |vs|
  {
    var longer := vs + [v];
    var last := Printed(v) + [end];
    assert longer[0] == vs[0] && longer[1..] == vs[1..] + [v];
    if |vs| == 1 {
      assert longer[1..] == [v];
      Associative(Printed(vs[0]), [','], last);
    } else {
      PrintedItemsAppend(vs[1..], v, end);
      Associative([','], PrintedItems(vs[1..], ','), last);
      Associative(Printed(vs[0]), [','] + PrintedItems(vs[1..], ','), last);
    }
  }

  lemma PrintedItemsPrefix(vs: seq<Value>, n: nat)
    requires n < |vs|
    ensures n == 0 ==> PrintedItems(vs[..n + 1], ',') == Printed(vs[n]) + [',']
    ensures n > 0 ==> PrintedItems(vs[..n + 1], ',') == PrintedItems(vs[..n], ',') + (Printed(vs[n]) + [','])
  {
    if n == 0 {
      assert vs[..1] == [vs[0]];
    } else {
      PrintedItemsAppend(vs[..n], vs[n], ',');
      assert vs[..n + 1] == vs[..n] + [vs[n]];
    }
  }

  /** The last comma is overwritten by the closing brace. */
  lemma {:induction false} LastComma(vs: seq<Value>)
    requires vs != []
    ensures PrintedItems(vs, ',') != []
    ensures PrintedItems(vs, ',')[|PrintedItems(vs, ',')| - 1 := '}'] == PrintedItems(vs, '}')
  {
    if |vs| > 1 {
      var init, last := vs[..|vs| - 1], vs[|vs| - 1];
      assert vs == init + [last];
      PrintedItemsAppend(init, last, ',');
      PrintedItemsAppend(init, last, '}');
    }
  }

  /** `element` of a leaf, of an optional, and of a container behind an optional. */
  method AppendElement(data: string, v: Value) returns (result: string)
    ensures result == data + Element(v)
    decreases v, 2
  {
    match v
    case Str(s) => result := ArrayAppend(data, s);
    case Nothing => result := data + NULL;
    case Just(w) => result := AppendElement(data, w);
    case Items(_) =>
      var text := ToArray([], v);
      assert [] + Printed(v) == Printed(v);
      result := ArrayAppend(data, text);
  }

  method ToArray(data: string, v: Value) returns (result: string)
    ensures result == data + Printed(v)
    decreases v, if v.Items? then 1 else 3
  {
    if !v.Items? {
      result := AppendElement(data, v);
    } else if v.vs == [] {
      result := data + ['{'];
      result := result + ['}'];
      Associative(data, ['{'], ['}']);
    } else {
      result := ToArrayLoop(data + ['{'], v);
      LastComma(v.vs);
      result := result[|result| - 1 := '}'];
    }
  }

  /** The elements of a container, each followed by a comma. */
  method ToArrayLoop(data: string, v: Value) returns (result: string)
    requires v.Items? && v.vs != []
    ensures result == data + PrintedItems(v.vs, ',')
    decreases v, 0
  {
    result := data;
    for i := 0 to |v.vs|
      invariant result == data + if i == 0 then [] else PrintedItems(v.vs[..i], ',')
    {
      ghost var before := result;
      result := ToArray(result, v.vs[i]);
      result := result + [','];
      PrintedItemsPrefix(v.vs, i);
      Associative(before, Printed(v.vs[i]), [',']);
      if i > 0 {
        Associative(data, PrintedItems(v.vs[..i], ','), Printed(v.vs[i]) + [',']);
      }
    }
    assert v.vs[..|v.vs|] == v.vs;
  }

  /** What a loop has collected, followed by what the rest of the text gives. */
  function Behind(result: string, p: Parsed<string>): Parsed<string> {
    match p case Parsed(s, rest) => Parsed(result + s, rest) case _ => p
  }

  lemma {:induction false} QuotedRun(text: string, n: nat)
    requires n <= |text| && forall i :: 0 <= i < n ==> !Escaped(text[i])
    ensures Quoted(text) == Behind(text[..n], Quoted(text[n..]))
    decreases n
  {
    if n == 0 {
      assert text[0..] == text;
      assert Quoted(text).Parsed? ==> [] + Quoted(text).value == Quoted(text).value;
    } else {
      QuotedRun(text[1..], n - 1);
      assert text[1..][n - 1..] == text[n..] && text[..n] == [text[0]] + text[1..][..n - 1];
      if Quoted(text[n..]).Parsed? {
        Associative([text[0]], text[1..][..n - 1], Quoted(text[n..]).value);
      }
    }
  }

  lemma BehindTwice(a: string, b: string, p: Parsed<string>)
    ensures Behind(a, Behind(b, p)) == Behind(a + b, p)
  {
    if p.Parsed? {
      Associative(a, b, p.value);
    }
  }

  /** The escape or the quote at the end of a run. */
  lemma {:induction false} QuotedPass(value: string, n: nat)
    requires n < |value| && Escaped(value[n]) && forall i :: 0 <= i < n ==> !Escaped(value[i])
    ensures value[n] == '"' ==> Quoted(value) == Parsed(value[..n], value[n + 1..])
    ensures value[n] == '\\' && n + 1 == |value| ==> Quoted(value) == Overran
    ensures value[n] == '\\' && n + 1 < |value| ==>
              Quoted(value) == Behind(value[..n] + [value[n + 1]], Quoted(value[n + 2..]))
  {
    QuotedRun(value, n);
    var more := value[n..];
    if value[n] == '"' {
      assert more[1..] == value[n + 1..];
      assert value[..n] + [] == value[..n];
    } else if n + 1 < |value| {
      assert more[2..] == value[n + 2..];
      BehindTwice(value[..n], [value[n + 1]], Quoted(value[n + 2..]));
    }
  }

  method ParseQuoted(text: string) returns (p: Parsed<string>)
    ensures p == Quoted(text)
  {
    var value, result := text, [];
    assert Quoted(text).Parsed? ==> [] + Quoted(text).value == Quoted(text).value;
    while true
      invariant Quoted(text) == Behind(result, Quoted(value))
      decreases |value|
    {
      var pos := FindEscaped(value);
      if pos.None? {
        QuotedRun(value, |value|);
        assert value[|value|..] == [];
        return Threw;
      }
      var n := pos.value;
      QuotedPass(value, n);
      if value[n] == '"' {
        return Parsed(result + value[..n], value[n + 1..]);
      }
      if n + 1 == |value| {
        return Overran;
      }
      BehindTwice(result, value[..n] + [value[n + 1]], Quoted(value[n + 2..]));
      Associative(result, value[..n], [value[n + 1]]);
      result := result + value[..n];
      result := result + [value[n + 1]];
      value := value[n + 2..];
    }
  }

  method ParseUnquoted(text: string) returns (p: Parsed<string>)
    ensures p == Unquoted(text)
  {
    assert text[..0] == [] && text[0..] == text;
    assert Unquoted(text).Parsed? ==> [] + Unquoted(text).value == Unquoted(text).value;
    for n := 0 to |text|
      invariant Unquoted(text) == Behind(text[..n], Unquoted(text[n..]))
    {
      if EndsUnquoted(text[n]) {
        assert text[..n] + [] == text[..n];
        return Parsed(text[..n], text[n..]);
      }
      assert text[n..][1..] == text[n + 1..] && text[..n + 1] == text[..n] + [text[n]];
      BehindTwice(text[..n], [text[n]], Unquoted(text[n + 1..]));
    }
    return Threw;
  }

  function AndThen(vs: seq<Value>, p: Parsed<seq<Value>>): Parsed<seq<Value>> {
    match p case Parsed(more, rest) => Parsed(vs + more, rest) case _ => p
  }

  /** One pass of the loop of the array parser. */
  lemma {:induction false} ParseItemsPass(ty: Type, vs: seq<Value>, value: string)
    requires Parse(ty, value).Parsed?
    ensures var v, rest := Parse(ty, value).value, Parse(ty, value).rest;
            AndThen(vs, ParseItems(ty, value))
            == if Peek(rest) == '}' then Parsed(vs + [v], rest[1..])
               else if Peek(rest) != ',' && Peek(rest) != ';' then Threw
               else AndThen(vs + [v], ParseItems(ty, rest[1..]))
  {
    var v, rest := Parse(ty, value).value, Parse(ty, value).rest;
    if Peek(rest) == ',' || Peek(rest) == ';' {
      var p := ParseItems(ty, rest[1..]);
      assert p.Parsed? ==> vs + ([v] + p.value) == vs + [v] + p.value;
    }
  }

  /** The loop of `parse` over the elements of an array. */
  method ParseElements(ty: Type, text: string) returns (p: Parsed<seq<Value>>)
    ensures p == ParseItems(ty, text)
    decreases ty, 5
  {
    var value, container := text, [];
    assert ParseItems(ty, text).Parsed? ==> [] + ParseItems(ty, text).value == ParseItems(ty, text).value;
    while true
      invariant ParseItems(ty, text) == AndThen(container, ParseItems(ty, value))
      decreases |value|
    {
      var element := ParseValue(ty, value);
      if !element.Parsed? {
        return if element.Threw? then Threw else Overran;
      }
      ParseItemsPass(ty, container, value);
      container := container + [element.value];
      value := element.rest;
      if Peek(value) == '}' {
        return Parsed(container, value[1..]);
      }
      if Peek(value) != ',' && Peek(value) != ';' {
        return Threw;
      }
      value := value[1..];
    }
  }

  method ParseValue(ty: Type, text: string) returns (p: Parsed<Value>)
    ensures p == Parse(ty, text)
    decreases ty, if ty.Array? then 1 else 4
  {
    if ty.Array? {
      if Peek(text) != '{' {
        return Threw;
      }
      if Peek(text[1..]) == '}' {
        return Parsed(Items([]), text[2..]);
      }
      var items := ParseElements(ty.of, text[1..]);
      match items {
        case Parsed(vs, rest) => p := Parsed(Items(vs), rest);
        case Threw => p := Threw;
        case Overran => p := Overran;
      }
    } else if Peek(text) == '"' {
      var part := ParseQuoted(text[1..]);
      p := FromCut(ty, part);
    } else {
      var part := ParseUnquoted(text);
      if part.Parsed? && part.value == NULL {
        return if ty.Optional? then Parsed(Nothing, part.rest) else Threw;
      }
      p := FromCut(ty, part);
    }
  }

  method FromCut(ty: Type, part: Parsed<string>) returns (p: Parsed<Value>)
    ensures p == FromPart(ty, part)
    decreases ty, 3
  {
    if !part.Parsed? {
      return if part.Threw? then Threw else Overran;
    }
    p := FromText(ty, part.value);
    if p.Parsed? {
      p := Parsed(p.value, part.rest);
    }
  }

  method FromText(ty: Type, text: string) returns (p: Parsed<Value>)
    ensures p == From(ty, text)
    decreases ty, 2
  {
    match ty
    case Text => p := Parsed(Str(text), []);
    case Optional(t) =>
      p := FromText(t, text);
      if p.Parsed? {
        p := Parsed(Just(p.value), p.rest);
      }
    case Array(_) =>
      p := ParseValue(ty, text);
      if p.Parsed? && p.rest != [] {
        p := Threw;
      }
  }
}
