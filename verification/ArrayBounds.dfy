/** How far the parser reads in an arbitrary text. */
module ArrayBounds {
  import opened Basics
  import opened ArrayText
  import opened ArrayRoundTrip

  /** The length of the run of backslashes at the end of a text. */
  function Backslashes(s: string): nat {
    if s == [] || s[|s| - 1] != '\\' then 0 else 1 + Backslashes(s[..|s| - 1])
  }

  /** A quote with an even number of backslashes in front of it. */
  predicate Closes(text: string, i: nat) {
    i < |text| && text[i] == '"' && Backslashes(text[..i]) % 2 == 0
  }

  predicate HasClosingQuote(text: string) { exists i :: 0 <= i < |text| && Closes(text, i) }

  /** What one pass of the loop of `parse_quoted` steps over: a character, or an escape. */
  predicate Step(u: string) {
    (|u| == 1 && !Escaped(u[0])) || (|u| == 2 && u[0] == '\\')
  }

  lemma {:induction false} BackslashesAfterStep(u: string, s: string)
    requires Step(u)
    ensures Backslashes(u + s) % 2 == Backslashes(s) % 2
    decreases |s|
  {
    var text := u + s;
    if s == [] {
      assert text == u;
      assert |u| == 2 ==> u[..1] == ['\\'] && u[..1][..0] == [];
    } else {
      assert text[..|text| - 1] == u + s[..|s| - 1];
      BackslashesAfterStep(u, s[..|s| - 1]);
    }
  }

  lemma NoCloseInStep(u: string, s: string, i: nat)
    requires Step(u) && i < |u|
    ensures !Closes(u + s, i)
  {
    if i == 1 {
      assert (u + s)[..1] == ['\\'];
      assert ['\\'][..0] == [] && Backslashes(['\\']) == 1;
    }
  }

  lemma ClosesAfterStep(u: string, s: string)
    requires Step(u)
    ensures HasClosingQuote(u + s) <==> HasClosingQuote(s)
  {
    var text := u + s;
    forall i: nat | Closes(s, i) ensures Closes(text, |u| + i) {
      assert text[..|u| + i] == u + s[..i];
      BackslashesAfterStep(u, s[..i]);
    }
    forall i: nat | i < |u| ensures !Closes(text, i) {
      NoCloseInStep(u, s, i);
    }
    forall i: nat | |u| <= i && Closes(text, i) ensures Closes(s, i - |u|) {
      assert text[..i] == u + s[..i - |u|];
      BackslashesAfterStep(u, s[..i - |u|]);
    }
  }

  /**
    Exactly when `parse_quoted` finds the end of its text, and exactly when it is led past the NUL:
    there is no closing quote, and the last backslash of the text is not escaped itself.
   */
  lemma {:induction false} QuotedOutcome(text: string)
    ensures Quoted(text).Parsed? <==> HasClosingQuote(text)
    ensures Quoted(text).Overran? <==> !HasClosingQuote(text) && Backslashes(text) % 2 == 1
    decreases |text|
  {
    if text != [] && text[0] == '"' {
      assert text[..0] == [] && Closes(text, 0);
    } else if |text| == 1 && text[0] == '\\' {
      assert text[..0] == [] && Backslashes(text) == 1;
    } else if text != [] {
      var u := if text[0] == '\\' then text[..2] else text[..1];
      var more := text[|u|..];
      assert text == u + more;
      QuotedOutcome(more);
      ClosesAfterStep(u, more);
      BackslashesAfterStep(u, more);
    }
  }

  // ---------- every quoting level ----------

  /** The text ends before its closing quote, and in the middle of an escape. */
  predicate Dangles(text: string) {
    !HasClosingQuote(text) && Backslashes(text) % 2 == 1
  }

  /** No element that the parser starts on dangles, nor any within a text that is parsed in its turn. */
  predicate Safe(ty: Type, text: string)
    decreases ty, if ty.Array? then 1 else 4
  {
    if ty.Array? then
      Peek(text) == '{' && Peek(text[1..]) != '}' ==> SafeItems(ty.of, text[1..])
    else if Peek(text) == '"' then
      !Dangles(text[1..]) && (HasClosingQuote(text[1..]) ==> SafePart(ty, Quoted(text[1..])))
    else Unquoted(text).Parsed? && Unquoted(text).value != NULL ==> SafePart(ty, Unquoted(text))
  }

  /** From the start of an element on. */
  predicate SafeItems(ty: Type, text: string)
    decreases ty, 5, |text|
  {
    Safe(ty, text) && (Continues(ty, text) ==> SafeItems(ty, Parse(ty, text).rest[1..]))
  }

  /** Another element follows. */
  predicate Continues(ty: Type, text: string) {
    var p := Parse(ty, text);
    p.Parsed? && (Peek(p.rest) == ',' || Peek(p.rest) == ';')
  }

  /** A text that is handed to `from`. */
  predicate SafeFrom(ty: Type, text: string)
    decreases ty, 2
  {
    match ty
    case Text => true
    case Optional(t) => SafeFrom(t, text)
    case Array(_) => Safe(ty, text)
  }

  predicate SafePart(ty: Type, part: Parsed<string>)
    decreases ty, 3
  {
    part.Parsed? ==> SafeFrom(ty, part.value)
  }

  /**
    `parse` is led past the NUL exactly when one of the elements that it starts on dangles, at some
    quoting level; otherwise it returns or throws.
   */
  lemma {:induction false} ParseStaysInside(ty: Type, text: string)
    ensures !Parse(ty, text).Overran? <==> Safe(ty, text)
    decreases ty, if ty.Array? then 1 else 4
  {
    if ty.Array? {
      if Peek(text) == '{' {
        ItemsStayInside(ty.of, text[1..]);
      }
    } else if Peek(text) == '"' {
      QuotedOutcome(text[1..]);
      PartStaysInside(ty, Quoted(text[1..]));
    } else {
      PartStaysInside(ty, Unquoted(text));
    }
  }

  lemma {:induction false} PartStaysInside(ty: Type, part: Parsed<string>)
    requires !ty.Array?
    ensures part.Parsed? ==> (!FromPart(ty, part).Overran? <==> SafePart(ty, part))
    decreases ty, 3
  {
    if part.Parsed? {
      FromStaysInside(ty, part.value);
    }
  }

  /** The same for the elements of an array up to its closing brace. */
  lemma {:induction false} ItemsStayInside(ty: Type, text: string)
    ensures !ParseItems(ty, text).Overran? <==> SafeItems(ty, text)
    decreases ty, 5, |text|
  {
    ParseStaysInside(ty, text);
    if Continues(ty, text) {
      ItemsStayInside(ty, Parse(ty, text).rest[1..]);
    }
  }

  /** The same for `from` of a whole text. */
  lemma {:induction false} FromStaysInside(ty: Type, text: string)
    ensures !From(ty, text).Overran? <==> SafeFrom(ty, text)
    decreases ty, 2
  {
    match ty
    case Text =>
    case Optional(t) => FromStaysInside(t, text);
    case Array(_) => ParseStaysInside(ty, text);
  }

  /** Whatever the client prints is safe, with anything behind it. */
  lemma {:induction false} PrintedIsSafe(ty: Type, v: Value, tail: string)
    requires HasType(v, ty) && (ty.Array? || Delimited(tail))
    ensures Safe(ty, Printed(v) + tail)
  {
    ParsePrinted(ty, v, tail);
    ParseStaysInside(ty, Printed(v) + tail);
  }

  // ---------- one quoting level ----------

  /** Containers are not behind an optional, so no element is parsed in its turn. */
  predicate OneLevel(ty: Type) {
    match ty
    case Text => true
    case Array(t) => OneLevel(t)
    case Optional(t) => NoArray(t)
  }

  predicate NoArray(ty: Type) { ty.Text? || (ty.Optional? && NoArray(ty.of)) }

  lemma {:induction false} NoArrayIsSafe(ty: Type, text: string)
    requires NoArray(ty)
    ensures SafeFrom(ty, text)
  {
    if ty.Optional? {
      NoArrayIsSafe(ty.of, text);
    }
  }

  /** `rest` is a suffix of `text`, and does not begin behind an escape backslash. */
  predicate Leaves(text: string, k: nat, rest: string) {
    && k <= |text| && rest == text[k..]
    && (k == 0 || text[k - 1] != '\\' || (k < |text| && text[k] != '\\'))
  }

  lemma {:induction false} SameTail(text: string, k: nat, rest: string)
    requires Leaves(text, k, rest)
    ensures Backslashes(rest) == Backslashes(text)
    decreases |text|
  {
    if k == 0 {
      assert text[0..] == text;
    } else if text[|text| - 1] == '\\' {
      var shorter := text[..|text| - 1];
      assert text[k..][..|text[k..]| - 1] == shorter[k..];
      SameTail(shorter, k, shorter[k..]);
    }
  }

  /** What is left is the text behind the closing quote. */
  lemma {:induction false} QuotedRest(text: string) returns (k: nat)
    requires Quoted(text).Parsed?
    ensures 0 < k <= |text| && text[k - 1] == '"' && Leaves(text, k, Quoted(text).rest)
    decreases |text|
  {
    if text[0] == '"' {
      k := 1;
    } else {
      var n := if text[0] == '\\' then 2 else 1;
      k := QuotedRest(text[n..]);
      assert text[n..][k..] == text[n + k..] && text[n..][k - 1] == text[n + k - 1];
      k := n + k;
    }
  }

  lemma {:induction false} UnquotedCuts(text: string)
    requires Unquoted(text).Parsed?
    ensures text == Unquoted(text).value + Unquoted(text).rest
  {
    if !EndsUnquoted(text[0]) {
      UnquotedCuts(text[1..]);
      assert text == [text[0]] + text[1..];
      Associative([text[0]], Unquoted(text[1..]).value, Unquoted(text[1..]).rest);
    }
  }

  lemma LeavesOfLeaves(text: string, k: nat, rest: string, m: nat, more: string)
    requires Leaves(text, k, rest) && Leaves(rest, m, more)
    ensures Leaves(text, k + m, more)
  {
    assert text[k..][m..] == text[k + m..];
    if m > 0 {
      assert text[k..][m - 1] == text[k + m - 1];
    }
  }

  /** On every text, what `parse` leaves is a suffix of it. */
  lemma {:induction false} ParseLeavesSuffix(ty: Type, text: string) returns (k: nat)
    ensures Parse(ty, text).Parsed? ==> Leaves(text, k, Parse(ty, text).rest)
    decreases ty, if ty.Array? then 1 else 4
  {
    k := 0;
    if !Parse(ty, text).Parsed? {
      return;
    }
    if ty.Array? {
      if Peek(text[1..]) == '}' {
        k := 2;
      } else {
        k := ItemsLeaveSuffix(ty.of, text[1..]);
        LeavesOfLeaves(text, 1, text[1..], k, Parse(ty, text).rest);
        k := 1 + k;
      }
    } else if text[0] == '"' {
      k := QuotedRest(text[1..]);
      LeavesOfLeaves(text, 1, text[1..], k, Parse(ty, text).rest);
      k := 1 + k;
    } else {
      UnquotedCuts(text);
      k := |Unquoted(text).value|;
      assert text[k..] == Unquoted(text).rest && text[k] == Unquoted(text).rest[0];
    }
  }

  /** What the elements leave, from what the first one leaves. */
  lemma {:induction false} AfterFirstItem(ty: Type, text: string, rest: string)
    requires ParseItems(ty, text).Parsed? && Parse(ty, text).Parsed? && rest == Parse(ty, text).rest
    ensures rest != [] && rest[0] != '\\'
    ensures Continues(ty, text) ==> ParseItems(ty, rest[1..]).Parsed?
    ensures ParseItems(ty, text).rest == if Continues(ty, text) then ParseItems(ty, rest[1..]).rest else rest[1..]
  {
  }

  lemma {:induction false} ItemsLeaveSuffix(ty: Type, text: string) returns (k: nat)
    ensures ParseItems(ty, text).Parsed? ==> Leaves(text, k, ParseItems(ty, text).rest)
    decreases ty, 5, |text|
  {
    k := ParseLeavesSuffix(ty, text);
    var all := ParseItems(ty, text);
    if all.Parsed? {
      var rest := Parse(ty, text).rest;
      AfterFirstItem(ty, text, rest);
      var more := rest[1..];
      LeavesOfLeaves(text, k, rest, 1, more);
      k := k + 1;
      if Continues(ty, text) {
        var m := ItemsLeaveSuffix(ty, more);
        LeavesOfLeaves(text, k, more, m, all.rest);
        k := k + m;
      }
    }
  }

  /** With one level, a text is safe when the run of backslashes at its end is even. */
  lemma {:induction false} OneLevelIsSafe(ty: Type, text: string)
    requires OneLevel(ty) && Backslashes(text) % 2 == 0
    ensures Safe(ty, text)
    decreases ty, if ty.Array? then 1 else 4
  {
    if ty.Array? {
      if Peek(text) == '{' {
        SameTail(text, 1, text[1..]);
        OneLevelItemsAreSafe(ty.of, text[1..]);
      }
    } else {
      forall part: Parsed<string> | part.Parsed? ensures SafePart(ty, part) {
        if ty.Optional? {
          NoArrayIsSafe(ty.of, part.value);
        }
      }
      if Peek(text) == '"' {
        SameTail(text, 1, text[1..]);
      }
    }
  }

  lemma {:induction false} OneLevelItemsAreSafe(ty: Type, text: string)
    requires OneLevel(ty) && Backslashes(text) % 2 == 0
    ensures SafeItems(ty, text)
    decreases ty, 5, |text|
  {
    OneLevelIsSafe(ty, text);
    if Continues(ty, text) {
      var rest := Parse(ty, text).rest;
      var k := ParseLeavesSuffix(ty, text);
      LeavesOfLeaves(text, k, rest, 1, rest[1..]);
      SameTail(text, k + 1, rest[1..]);
      OneLevelItemsAreSafe(ty, rest[1..]);
    }
  }

  /** A text that ends within an escape is read beyond its end. */
  lemma OverrunHappens()
    ensures !Safe(Array(Text), ['{', '"', '\\']) && From(Array(Text), ['{', '"', '\\']) == Overran
  {
    var text := ['{', '"', '\\'];
    assert text[1..] == ['"', '\\'] && text[1..][1..] == ['\\'];
    assert Quoted(['\\']) == Overran;
    assert Parse(Text, text[1..]) == Overran && ParseItems(Text, text[1..]) == Overran;
    ParseStaysInside(Array(Text), text);
  }
}
