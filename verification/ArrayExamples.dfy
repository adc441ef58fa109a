/** Texts and bytes that are lost or kept on their way through an array on the server. */
module ArrayExamples {
  import opened Basics
  import opened ArrayText
  import opened ArrayRoundTrip
  import opened ArrayServer
  import opened ArrayExchange
  import B = Bytea

  /** An array of one text that needs no quotes. */
  lemma OnePrinted(s: string)
    requires Plain(s) && s != [] && s != NULL
    ensures Printed(Items([Str(s)])) == ['{'] + (s + ['}'])
  {
    var vs := [Str(s)];
    assert PrintedItems(vs, '}') == Printed(vs[0]) + ['}'];
  }

  /** Any text that spells NULL in another case is stored as NULL. */
  lemma SpelledNullIsLost(s: string)
    requires SpellsNull(s) && s != NULL
    ensures ArrayIn(Printed(Items([Str(s)]))) == Some(Sub([Null]))
  {
    OnePrinted(s);
    InItemOfTrimmed(s, ['}']);
    InArrayOfOne(s, Null);
  }

  /** A text without quotes that begins and ends with something else than white space. */
  lemma {:induction false} InItemOfTrimmed(s: string, tail: string)
    requires Plain(s) && s != [] && !Space(s[0]) && !Space(s[|s| - 1]) && Ends(tail)
    ensures InItem(s + tail) == AsDatum(Got(Word(s, false), tail))
  {
    SkipSpaceOfPlain(s, tail);
    InBareOfPlain(s, tail);
    TrimEndIff(s);
    assert First(s + tail) == s[0] && !NeedsQuotes(s[0]);
  }

  lemma {:induction false} InArrayOfOne(s: string, d: Datum)
    requires s != [] && s[0] != '}' && !Space(s[0]) && InItem(s + ['}']) == Got(d, ['}'])
    ensures ArrayIn(['{'] + (s + ['}'])) == Some(Sub([d]))
  {
    var text := ['{'] + (s + ['}']);
    assert text[1..] == s + ['}'] && SkipSpace(text[1..]) == text[1..] && SkipSpace(text) == text;
    assert InItems(s + ['}']) == Got([d], []);
  }

  /** A text of one newline is not stored: the array is empty. */
  lemma NewlineIsLost()
    ensures ArrayIn(Printed(Items([Str(['\n'])]))) == Some(Sub([]))
  {
    var s: string := ['\n'];
    OnePrinted(s);
    var text := Printed(Items([Str(s)]));
    assert text[1..] == s + ['}'];
    assert (s + ['}'])[1..] == ['}'] && SkipSpace(s + ['}']) == ['}'];
  }

  predicate Unguarded(s: string) { forall i :: 0 <= i < |s| ==> !Guarded(s[i]) && s[i] != ';' && s[i] != NUL }

  /** Two texts with a semicolon between them are stored as one text, and come back as two. */
  lemma SemicolonSplits(a: string, b: string)
    requires Unguarded(a) && Unguarded(b) && a != NULL && b != NULL
    ensures ArrayIn(CStr(Printed(Items([Str(a + ([';'] + b))])))) == Some(Sub([Txt(a + ([';'] + b))]))
    ensures From(Array(Text), Out(Sub([Txt(a + ([';'] + b))]))) == Parsed(Items([Str(a), Str(b)]), [])
  {
    SemicolonIsStored(a, b);
    SemicolonIsPrinted(a, b);
    ReadTwo(a, b);
  }

  lemma SemicolonIsStored(a: string, b: string)
    requires Unguarded(a) && Unguarded(b)
    ensures ArrayIn(CStr(Printed(Items([Str(a + ([';'] + b))])))) == Some(Sub([Txt(a + ([';'] + b))]))
  {
    var s := a + ([';'] + b);
    var vs := [Str(s)];
    assert s[|a|] == ';' && Syntax(s[|a|]) && vs[1..] == [];
    assert Survives(vs[0]) && AllSurvive(vs);
    forall i | 0 <= i < |s| ensures s[i] != NUL {
      assert s[i] == if i < |a| then a[i] else if i == |a| then ';' else b[i - |a| - 1];
    }
    assert ValueNulFree(vs[0]) && AllNulFree(vs);
    PrintedArrives(vs);
    HeldCons(vs, Client);
  }

  lemma SemicolonIsPrinted(a: string, b: string)
    requires Unguarded(a) && Unguarded(b)
    ensures Out(Sub([Txt(a + ([';'] + b))])) == ['{'] + (a + ([';'] + (b + ['}'])))
  {
    var s := a + ([';'] + b);
    forall i | 0 <= i < |s| ensures !Guarded(s[i]) {
      assert s[i] == if i < |a| then a[i] else if i == |a| then ';' else b[i - |a| - 1];
    }
    assert s[|a|] == ';' && !SpellsNull(s);
    var ds := [Txt(s)];
    assert OutItems(ds) == Out(ds[0]) + ['}'];
    Associative(a, [';'] + b, ['}']);
    Associative([';'], b, ['}']);
  }

  lemma {:induction false} ParseUnguarded(s: string, tail: string)
    requires Unguarded(s) && s != NULL && Delimited(tail)
    ensures Parse(Text, s + tail) == Parsed(Str(s), tail)
  {
    forall i | 0 <= i < |s| ensures !NeedsQuotes(s[i]) {
      assert !Guarded(s[i]);
    }
    UnquotedOfPlain(s, tail);
    assert (s + tail)[0] == if s == [] then tail[0] else s[0];
  }

  lemma {:induction false} ReadTwo(a: string, b: string)
    requires Unguarded(a) && Unguarded(b) && a != NULL && b != NULL
    ensures From(Array(Text), ['{'] + (a + ([';'] + (b + ['}'])))) == Parsed(Items([Str(a), Str(b)]), [])
  {
    var second := b + ['}'];
    var first := a + ([';'] + second);
    ParseUnguarded(a, [';'] + second);
    ParseUnguarded(b, ['}']);
    assert ([';'] + second)[1..] == second;
    assert ParseItems(Text, second) == Parsed([Str(b)], []);
    assert ParseItems(Text, first) == Parsed([Str(a)] + [Str(b)], []);
    assert [Str(a)] + [Str(b)] == [Str(a), Str(b)];
    assert (['{'] + first)[1..] == first;
    assert first[0] == if a == [] then ';' else a[0];
    assert Peek(first) != '}';
  }

  // ---------- bytea ----------

  lemma {:induction false} HexIsPlain(bytes: seq<B.Byte>)
    ensures Plain(['x'] + B.Hex(bytes))
    ensures forall i :: 0 <= i < |B.Hex(bytes)| ==> !Space(B.Hex(bytes)[i]) && B.Hex(bytes)[i] != NUL
  {
    B.HexHasDigits(bytes);
    forall i | 0 <= i < |B.Hex(bytes)|
      ensures !NeedsQuotes(B.Hex(bytes)[i]) && !Space(B.Hex(bytes)[i]) && B.Hex(bytes)[i] != NUL
    {
      assert B.Unhex(B.Hex(bytes)[i]).Some?;
    }
  }

  /** An element that starts with an escaped character. */
  lemma {:induction false} InItemOfEscape(c: char, s: string, tail: string)
    requires Plain(s) && s != [] && !Space(s[|s| - 1]) && Ends(tail)
    ensures InItem(['\\', c] + (s + tail)) == Got(Txt([c] + s), tail)
  {
    var text := ['\\', c] + (s + tail);
    InBareOfPlain(s, tail);
    TrimEndIff(s);
    assert text[2..] == s + tail && SkipSpace(text) == text;
  }

  /** A `bytea` element of an array: the server removes one of the backslashes, and has the bytes. */
  lemma {:induction false} ByteaElementArrives(bytes: seq<B.Byte>, tail: string)
    requires Ends(tail)
    ensures InItem(B.Doubled(bytes) + tail) == Got(Txt(B.HexText(bytes)), tail)
    ensures B.ByteaIn(B.HexText(bytes)) == Some(bytes)
  {
    var s := ['x'] + B.Hex(bytes);
    HexIsPlain(bytes);
    InItemOfEscape('\\', s, tail);
    assert ['\\', '\\'] + (s + tail) == B.Doubled(bytes) + tail;
    assert ['\\'] + s == B.HexText(bytes);
    B.ServerReadsBytes(bytes);
  }

  /** The text of the server's bytes comes through the array parser unchanged. */
  lemma {:induction false} ByteaElementIsRead(bytes: seq<B.Byte>, tail: string)
    requires Delimited(tail)
    ensures Parse(Text, OutText(B.ByteaOut(bytes)) + tail) == Parsed(Str(B.ByteaOut(bytes)), tail)
  {
    assert Guarded(B.ByteaOut(bytes)[0]);
    ParseOutQuoted(Text, B.ByteaOut(bytes), tail);
  }
}
