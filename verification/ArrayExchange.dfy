/** Arrays between the client and the server: what each makes of the other's text. */
module ArrayExchange {
  import opened Basics
  import opened ArrayText
  import opened ArrayRoundTrip
  import opened ArrayServer

  /** Who printed the containers that are behind an optional: the server takes them for texts. */
  datatype Writer = Client | Server

  /** What the server holds for a value. */
  function Held(v: Value, side: Writer): Datum
    decreases v, 1
  {
    match v
    case Str(s) => Txt(s)
    case Nothing => Null
    case Just(w) => if w.Items? then Txt(InnerText(w, side)) else Held(w, side)
    case Items(vs) => Sub(HeldAll(vs, side))
  }

  function HeldAll(vs: seq<Value>, side: Writer): (ds: seq<Datum>)
    ensures |ds| == |vs|
    decreases vs, 0
  {
    if vs == [] then [] else [Held(vs[0], side)] + HeldAll(vs[1..], side)
  }

  /** The text of a container behind an optional. */
  function InnerText(w: Value, side: Writer): string
    requires w.Items?
    decreases w, 2
  {
    if side.Client? then Printed(w) else Out(Held(w, side))
  }

  // ---------- the client writes, the server reads ----------

  /** A text with one of these characters is quoted by the client. */
  predicate Syntax(c: char) {
    c == '\\' || c == '"' || c == '{' || c == '}' || c == ',' || c == ';' || c == ' ' || c == '\t'
  }

  /** The texts that reach the server as they are: the others have white space at an end, or spell NULL. */
  predicate TextSurvives(s: string) {
    || s == [] || s == ['N', 'U', 'L', 'L'] || (exists i :: 0 <= i < |s| && Syntax(s[i]))
    || (!Space(s[0]) && !Space(s[|s| - 1]) && !SpellsNull(s))
  }

  predicate Survives(v: Value)
    decreases v, 1
  {
    match v
    case Str(s) => TextSurvives(s)
    case Nothing => true
    case Just(w) => w.Items? || Survives(w)
    case Items(vs) => AllSurvive(vs)
  }

  predicate AllSurvive(vs: seq<Value>)
    decreases vs, 0
  {
    vs == [] || (Survives(vs[0]) && AllSurvive(vs[1..]))
  }

  /** What a reader makes of a text: what is expected, if `good`; else something else, or nothing. */
  predicate Reads<T(==)>(r: In<T>, expected: T, tail: string, good: bool) {
    if good then r == Got(expected, tail) else r.Malformed? || (r.rest == tail && r.value != expected)
  }

  /** An element is followed by a comma or by the closing brace. */
  predicate Ends(tail: string) { tail != [] && (tail[0] == ',' || tail[0] == '}') }

  lemma {:induction false} InQuotedOfEscaped(s: string, tail: string)
    ensures InQuoted(EscapeQuoted(s) + (['"'] + tail)) == Got(s, tail)
  {
    if s == [] {
      assert [] + (['"'] + tail) == ['"'] + tail;
      assert (['"'] + tail)[1..] == tail;
    } else {
      InQuotedOfEscaped(s[1..], tail);
      Associative(Unit(s[0]), EscapeQuoted(s[1..]), ['"'] + tail);
      assert [s[0]] + s[1..] == s;
    }
  }

  lemma {:induction false} InItemOfQuoted(s: string, tail: string)
    ensures InItem(['"'] + (EscapeQuoted(s) + ['"']) + tail) == Got(Txt(s), tail)
  {
    var text := ['"'] + (EscapeQuoted(s) + ['"']) + tail;
    Associative(['"'], EscapeQuoted(s) + ['"'], tail);
    Associative(EscapeQuoted(s), ['"'], tail);
    assert text[1..] == EscapeQuoted(s) + (['"'] + tail);
    InQuotedOfEscaped(s, tail);
  }

  /** Without the white space at the end. */
  function TrimEnd(s: string): string {
    if s == [] then []
    else if Space(s[0]) && TrimEnd(s[1..]) == [] then []
    else [s[0]] + TrimEnd(s[1..])
  }

  lemma {:induction false} TrimEndIff(s: string)
    ensures |TrimEnd(s)| <= |s|
    ensures TrimEnd(s) == s <==> s == [] || !Space(s[|s| - 1])
  {
    if s != [] {
      TrimEndIff(s[1..]);
      assert [s[0]] + s[1..] == s;
      assert |s| > 1 ==> s[1..][|s| - 2] == s[|s| - 1];
    }
  }

  lemma {:induction false} InBareOfPlain(s: string, tail: string)
    requires Ends(tail) && Plain(s)
    ensures InBare(s + tail) == Got(Word(TrimEnd(s), false), tail)
  {
    if s == [] {
      assert s + tail == tail;
    } else {
      assert (s + tail)[1..] == s[1..] + tail && !NeedsQuotes(s[0]);
      InBareOfPlain(s[1..], tail);
    }
  }

  lemma {:induction false} SkipSpaceOfPlain(s: string, tail: string)
    requires Ends(tail) && Plain(s)
    ensures SkipSpace(s + tail) == SkipSpace(s) + tail && Plain(SkipSpace(s))
    ensures SkipSpace(s) == s <==> s == [] || !Space(s[0])
    ensures s != [] && SkipSpace(s) == [] ==> Space(s[|s| - 1])
  {
    if s == [] {
      assert s + tail == tail;
    } else if Space(s[0]) {
      assert (s + tail)[1..] == s[1..] + tail;
      SkipSpaceOfPlain(s[1..], tail);
      assert |SkipSpace(s)| < |s|;
    }
  }

  /** What the server makes of a text without quotes. */
  lemma {:induction false} InItemOfPlain(s: string, tail: string)
    requires Ends(tail) && Plain(s) && s != []
    ensures Reads(InItem(s + tail), Txt(s), tail, !Space(s[0]) && !Space(s[|s| - 1]) && !SpellsNull(s))
  {
    var t := SkipSpace(s);
    SkipSpaceOfPlain(s, tail);
    InBareOfPlain(t, tail);
    TrimEndIff(t);
    assert First(t + tail) == if t == [] then tail[0] else t[0];
    assert t != [] ==> !NeedsQuotes(t[0]);
    assert InItem(s + tail) == AsDatum(InBare(t + tail));
    if TrimEnd(t) == s {
      assert |t| == |s| && t == s;
    }
  }

  lemma {:induction false} InItemOfAppended(s: string, tail: string)
    requires Ends(tail)
    ensures Reads(InItem(Appended(s) + tail), Txt(s), tail, TextSurvives(s))
  {
    if s != [] && s != NULL && Plain(s) {
      forall i | 0 <= i < |s| ensures !Syntax(s[i]) {
        assert !NeedsQuotes(s[i]);
      }
      InItemOfPlain(s, tail);
    } else {
      InItemOfQuoted(s, tail);
      if s != [] && s != NULL {
        var i :| 0 <= i < |s| && NeedsQuotes(s[i]);
        assert Syntax(s[i]);
      }
    }
  }

  lemma {:induction false} InItemOfNull(tail: string)
    requires Ends(tail)
    ensures InItem(NULL + tail) == Got(Null, tail)
  {
    SkipSpaceOfPlain(NULL, tail);
    InBareOfPlain(NULL, tail);
    TrimEndIff(NULL);
    assert First(NULL + tail) == 'N';
  }

  lemma {:induction false} InItemOfElement(v: Value, tail: string)
    requires !v.Items? && Ends(tail)
    ensures Reads(InItem(Element(v) + tail), Held(v, Client), tail, Survives(v))
  {
    match v
    case Str(s) => InItemOfAppended(s, tail);
    case Nothing => InItemOfNull(tail);
    case Just(w) =>
      if w.Items? {
        assert Syntax(Printed(w)[0]);
        InItemOfAppended(Printed(w), tail);
      } else {
        InItemOfElement(w, tail);
      }
  }

  /** A printed value is not taken for the end of the array, unless it is white space. */
  lemma {:induction false} AheadOfElement(v: Value, tail: string)
    requires !v.Items? && Ends(tail)
    ensures var t := SkipSpace(Element(v) + tail); First(t) == '}' ==> t == tail && !Survives(v)
  {
    match v
    case Str(s) => AheadOfAppended(s, tail);
    case Nothing => SkipSpaceOfPlain(NULL, tail);
    case Just(w) =>
      if w.Items? {
        AheadOfAppended(Printed(w), tail);
        assert Syntax(Printed(w)[0]);
      } else {
        AheadOfElement(w, tail);
      }
  }

  lemma {:induction false} AheadOfAppended(s: string, tail: string)
    requires Ends(tail)
    ensures var t := SkipSpace(Appended(s) + tail); First(t) == '}' ==> t == tail && !TextSurvives(s)
  {
    if s != [] && s != NULL && Plain(s) {
      SkipSpaceOfPlain(s, tail);
      forall i | 0 <= i < |s| ensures !Syntax(s[i]) {
        assert !NeedsQuotes(s[i]);
      }
      var t := SkipSpace(s);
      assert t != [] ==> (t + tail)[0] == t[0] && !NeedsQuotes(t[0]);
      assert t == [] ==> t + tail == tail;
    } else {
      assert (Appended(s) + tail)[0] == '"';
    }
  }

  lemma {:induction false} AheadOfPrinted(vs: seq<Value>, tail: string)
    requires vs != []
    ensures var t := SkipSpace(PrintedItems(vs, '}') + tail);
            First(t) == '}' ==> |vs| == 1 && t == ['}'] + tail && !AllSurvive(vs)
  {
    var more := if |vs| == 1 then ['}'] + tail else [','] + (PrintedItems(vs[1..], '}') + tail);
    CutItems(vs, tail);
    if vs[0].Items? {
      assert (Printed(vs[0]) + more)[0] == '{';
    } else {
      AheadOfElement(vs[0], more);
    }
  }

  /** The first element, and what follows it. */
  lemma {:induction false} CutItems(vs: seq<Value>, tail: string)
    requires vs != []
    ensures PrintedItems(vs, '}') + tail
         == Printed(vs[0]) + (if |vs| == 1 then ['}'] + tail else [','] + (PrintedItems(vs[1..], '}') + tail))
  {
    if |vs| == 1 {
      Associative(Printed(vs[0]), ['}'], tail);
    } else {
      Associative(Printed(vs[0]), [','] + PrintedItems(vs[1..], '}'), tail);
      Associative([','], PrintedItems(vs[1..], '}'), tail);
    }
  }

  lemma {:induction false} InArrayOfPrinted(vs: seq<Value>, tail: string)
    ensures First(Printed(Items(vs)) + tail) == '{'
    ensures Reads(InArray(Printed(Items(vs)) + tail), Sub(HeldAll(vs, Client)), tail, AllSurvive(vs))
    decreases vs, 1
  {
    var text := Printed(Items(vs)) + tail;
    if vs == [] {
      assert text[1..] == ['}'] + tail && SkipSpace(text[1..]) == text[1..] && text[1..][1..] == tail;
    } else {
      assert text[1..] == PrintedItems(vs, '}') + tail;
      InItemsOfPrinted(vs, tail);
      AheadOfPrinted(vs, tail);
      assert (['}'] + tail)[1..] == tail;
    }
  }

  lemma {:induction false} InItemOfPrinted(v: Value, tail: string)
    requires Ends(tail)
    ensures Reads(InItem(Printed(v) + tail), Held(v, Client), tail, Survives(v))
    decreases v, 2
  {
    if v.Items? {
      InArrayOfPrinted(v.vs, tail);
    } else {
      InItemOfElement(v, tail);
    }
  }

  lemma {:induction false} InItemsOfPrinted(vs: seq<Value>, tail: string)
    requires vs != []
    ensures Reads(InItems(PrintedItems(vs, '}') + tail), HeldAll(vs, Client), tail, AllSurvive(vs))
    decreases vs, 0
  {
    CutItems(vs, tail);
    if |vs| == 1 {
      InItemOfPrinted(vs[0], ['}'] + tail);
      assert vs[1..] == [] && SkipSpace(['}'] + tail) == ['}'] + tail && (['}'] + tail)[1..] == tail;
      HeldCons(vs, Client);
      var p := InItem(Printed(vs[0]) + (['}'] + tail));
      assert AllSurvive(vs) <==> Survives(vs[0]);
      assert p.Got? ==> [p.value][0] == p.value;
    } else {
      var more := PrintedItems(vs[1..], '}') + tail;
      InItemOfPrinted(vs[0], [','] + more);
      assert SkipSpace([','] + more) == [','] + more && ([','] + more)[1..] == more;
      InItemsOfPrinted(vs[1..], tail);
      HeldCons(vs, Client);
      var q := InItems(more);
      forall d | q.Got? ensures [d] + q.value == HeldAll(vs, Client) <==>
                                  d == Held(vs[0], Client) && q.value == HeldAll(vs[1..], Client) {
        assert ([d] + q.value)[0] == d && ([d] + q.value)[1..] == q.value;
      }
    }
  }

  lemma {:induction false} HeldCons(vs: seq<Value>, side: Writer)
    requires vs != []
    ensures HeldAll(vs, side)[0] == Held(vs[0], side) && HeldAll(vs, side)[1..] == HeldAll(vs[1..], side)
    ensures |vs| == 1 ==> HeldAll(vs, side) == [Held(vs[0], side)]
  {
  }

  /**
    What the client prints reaches the server: it is read as the array of the value's elements, nested
    alike, exactly when every text survives. All other texts arrive changed, as NULL, or not at all.
   */
  lemma {:induction false} PrintedArrives(vs: seq<Value>)
    requires ValueNulFree(Items(vs))
    ensures ArrayIn(CStr(Printed(Items(vs)))) == Some(Held(Items(vs), Client)) <==> Survives(Items(vs))
  {
    PrintedNulFree(Items(vs));
    CStrOfNulFree(Printed(Items(vs)));
    InArrayOfPrinted(vs, []);
    assert Printed(Items(vs)) + [] == Printed(Items(vs));
  }

  // ---------- the server writes, the client reads ----------

  /**
    The server does not quote a semicolon, which the client takes for a delimiter: a text with one is
    split, unless something else in it is quoted.
   */
  predicate TextSplits(s: string) { ';' in s && forall i :: 0 <= i < |s| ==> !Guarded(s[i]) }

  /** No text is split; of the texts of inner containers only those that the server wrote matter. */
  predicate Whole(v: Value, side: Writer)
    decreases v, 1
  {
    match v
    case Str(s) => !TextSplits(s)
    case Nothing => true
    case Just(w) => if w.Items? && side.Client? then true else Whole(w, side)
    case Items(vs) => AllWhole(vs, side)
  }

  predicate AllWhole(vs: seq<Value>, side: Writer)
    decreases vs, 0
  {
    vs == [] || (Whole(vs[0], side) && AllWhole(vs[1..], side))
  }

  /** What a parser makes of a text: what is expected, if `good`; else something else, or an exception. */
  predicate Parses<T(==)>(p: Parsed<T>, expected: T, tail: string, good: bool) {
    if good then p == Parsed(expected, tail) else p.Threw? || (p.Parsed? && p.rest == tail && p.value != expected)
  }

  lemma {:induction false} OutEscapedIsEscapeQuoted(s: string)
    ensures OutEscaped(s) == EscapeQuoted(s)
  {
    if s != [] {
      OutEscapedIsEscapeQuoted(s[1..]);
    }
  }

  /** A quoted text, whatever it is, is handed to `from`. */
  lemma {:induction false} ParseOutQuoted(ty: Type, s: string, tail: string)
    requires !ty.Array? && !Bare(s)
    ensures Parse(ty, OutText(s) + tail) == FromPart(ty, Parsed(s, tail))
  {
    var text := OutText(s) + tail;
    OutEscapedIsEscapeQuoted(s);
    Associative(['"'], EscapeQuoted(s) + ['"'], tail);
    Associative(EscapeQuoted(s), ['"'], tail);
    assert text[1..] == EscapeQuoted(s) + (['"'] + tail);
    QuotedOfEscaped(s, tail);
  }

  lemma {:induction false} ParseOutText(ty: Type, s: string, tail: string)
    requires !ty.Array? && Delimited(tail) && !TextSplits(s)
    ensures Parse(ty, OutText(s) + tail) == FromPart(ty, Parsed(s, tail))
  {
    if Bare(s) {
      forall i | 0 <= i < |s| ensures !NeedsQuotes(s[i]) {
        assert !Guarded(s[i]);
      }
      UnquotedOfPlain(s, tail);
      assert (s + tail)[0] == s[0];
    } else {
      ParseOutQuoted(ty, s, tail);
    }
  }

  /** The types whose elements are read from one text without a container in it. */
  predicate TextCore(ty: Type) { ty.Text? || (ty.Optional? && TextCore(ty.of)) }

  lemma {:induction false} TextCoreParses(ty: Type, s: string)
    requires TextCore(ty)
    ensures From(ty, s).Parsed? && From(ty, s).rest == []
  {
    if ty.Optional? {
      TextCoreParses(ty.of, s);
    }
  }

  /** What the elements behind a delimiter amount to. */
  function Remaining(ty: Type, rest: string): Parsed<seq<Value>>
    requires rest != []
  {
    if rest[0] == '}' then Parsed([], rest[1..]) else ParseItems(ty, rest[1..])
  }

  /** The part of such a text that is taken for an element. */
  lemma {:induction false} ParsePiece(ty: Type, s: string, n: nat, rest: string)
    requires TextCore(ty) && Ends(rest) && forall i :: 0 <= i < |s| ==> !Guarded(s[i])
    requires n == FirstSemicolon(s)
    ensures var p := Parse(ty, s + rest); p.Threw? || (p.Parsed? && p.rest == (s + rest)[n..])
  {
    UnquotedOfPiece(s, n, rest);
    TextCoreParses(ty, s[..n]);
    assert (s + rest)[0] == if s == [] then rest[0] else s[0];
  }

  /** A text with semicolons in front of more elements gives more than one element, or an exception. */
  lemma {:induction false} SplitText(ty: Type, s: string, rest: string)
    requires TextCore(ty) && Ends(rest) && forall i :: 0 <= i < |s| ==> !Guarded(s[i])
    ensures var p, more := ParseItems(ty, s + rest), Remaining(ty, rest);
            && (p.Overran? ==> more.Overran?)
            && (p.Parsed? ==> more.Parsed? && p.rest == more.rest
                              && |p.value| >= |more.value| + (if ';' in s then 2 else 1))
    decreases |s|
  {
    var text := s + rest;
    var n := FirstSemicolon(s);
    ParsePiece(ty, s, n, rest);
    if n < |s| {
      assert text[n..][0] == ';' && text[n..][1..] == s[n + 1..] + rest;
      SplitText(ty, s[n + 1..], rest);
    } else {
      assert text[n..] == rest;
    }
  }

  /** The position of the first semicolon, or the length. */
  function FirstSemicolon(s: string): (n: nat)
    ensures n <= |s| && (n < |s| ==> s[n] == ';') && (forall i :: 0 <= i < n ==> s[i] != ';')
    ensures n == |s| <==> ';' !in s
  {
    if s == [] || s[0] == ';' then 0 else 1 + FirstSemicolon(s[1..])
  }

  lemma {:induction false} UnquotedOfPiece(s: string, n: nat, rest: string)
    requires n == FirstSemicolon(s) && Ends(rest) && forall i :: 0 <= i < |s| ==> !Guarded(s[i])
    ensures Unquoted(s + rest) == Parsed(s[..n], (s + rest)[n..])
  {
    forall i | 0 <= i < n ensures !NeedsQuotes(s[..n][i]) {
      assert !Guarded(s[i]);
    }
    assert s + rest == s[..n] + (s + rest)[n..];
    assert (s + rest)[n..][0] == (s + rest)[n];
    UnquotedOfPlain(s[..n], (s + rest)[n..]);
  }

  lemma {:induction false} HollowIsNull(v: Value, side: Writer)
    requires Hollow(v)
    ensures Held(v, side) == Null && Whole(v, side) && Collapse(v) == Nothing
  {
    if v.Just? {
      HollowIsNull(v.v, side);
    }
  }

  /** The text that the server holds for an element, and what `from` makes of it. */
  lemma {:induction false} FromHeld(ty: Type, v: Value, side: Writer) returns (s: string)
    requires HasType(v, ty) && !ty.Array? && !Hollow(v)
    ensures Held(v, side) == Txt(s)
    ensures TextCore(ty) ==> From(ty, s) == Parsed(Collapse(v), []) && (Whole(v, side) <==> !TextSplits(s))
    ensures !TextCore(ty) ==> !Bare(s) && Parses(From(ty, s), Collapse(v), [], Whole(v, side))
    decreases ty, 4
  {
    match ty
    case Text => s := v.s;
    case Optional(t) =>
      if t.Array? {
        s := InnerText(v.v, side);
        FromInner(t, v.v, side);
        assert !TextCore(t);
      } else {
        s := FromHeld(t, v.v, side);
      }
  }

  lemma {:induction false} FromInner(ty: Type, w: Value, side: Writer)
    requires HasType(w, ty) && ty.Array?
    ensures !Bare(InnerText(w, side))
    ensures Parses(From(ty, InnerText(w, side)), Collapse(w), [], side.Client? || Whole(w, side))
    decreases ty, 3
  {
    var s := InnerText(w, side);
    assert s + [] == s;
    if side.Client? {
      ParsePrinted(ty, w, []);
    } else {
      ParseHeldArray(ty.of, w.vs, side, []);
    }
    assert s[0] == '{' && Guarded(s[0]);
  }

  /** A single element, unless it is a text that is split. */
  lemma {:induction false} ParseHeld(ty: Type, v: Value, side: Writer, tail: string)
    requires HasType(v, ty) && (ty.Array? || Delimited(tail)) && (TextCore(ty) ==> Whole(v, side))
    ensures Parses(Parse(ty, Out(Held(v, side)) + tail), Collapse(v), tail, Whole(v, side))
    decreases ty, 5
  {
    if ty.Array? {
      ParseHeldArray(ty.of, v.vs, side, tail);
    } else if Hollow(v) {
      HollowIsNull(v, side);
      UnquotedOfPlain(['N', 'U', 'L', 'L'], tail);
    } else {
      var s := FromHeld(ty, v, side);
      if TextCore(ty) {
        ParseOutText(ty, s, tail);
      } else {
        ParseOutQuoted(ty, s, tail);
      }
    }
  }

  lemma {:induction false} OutStart(d: Datum)
    ensures Out(d) != [] && Out(d)[0] != '}'
  {
    if d.Txt? && Bare(d.s) {
      assert !Guarded(d.s[0]);
    }
  }

  lemma {:induction false} CutOutItems(ds: seq<Datum>, tail: string)
    requires ds != []
    ensures OutItems(ds) + tail
         == Out(ds[0]) + (if |ds| == 1 then ['}'] + tail else [','] + (OutItems(ds[1..]) + tail))
  {
    if |ds| == 1 {
      Associative(Out(ds[0]), ['}'], tail);
    } else {
      Associative(Out(ds[0]), [','] + OutItems(ds[1..]), tail);
      Associative([','], OutItems(ds[1..]), tail);
    }
  }

  lemma {:induction false} ParseHeldArray(ty: Type, vs: seq<Value>, side: Writer, tail: string)
    requires AllHaveType(vs, ty)
    ensures Parses(Parse(Array(ty), Out(Sub(HeldAll(vs, side))) + tail), Items(CollapseAll(vs)), tail,
                   AllWhole(vs, side))
    decreases ty, 7
  {
    var ds := HeldAll(vs, side);
    var text := Out(Sub(ds)) + tail;
    if vs == [] {
      assert text[0] == '{' && text[1..] == ['}'] + tail && text[2..] == tail;
    } else {
      assert text[1..] == OutItems(ds) + tail;
      ParseHeldItems(ty, vs, side, tail);
      OutStart(ds[0]);
    }
  }

  /** The elements up to the closing brace. Splitting a text makes them more. */
  lemma {:induction false} ParseHeldItems(ty: Type, vs: seq<Value>, side: Writer, tail: string)
    requires AllHaveType(vs, ty) && vs != []
    ensures var p := ParseItems(ty, OutItems(HeldAll(vs, side)) + tail);
            && Parses(p, CollapseAll(vs), tail, AllWhole(vs, side))
            && (TextCore(ty) && p.Parsed? ==> |p.value| >= |vs| + (if AllWhole(vs, side) then 0 else 1))
    decreases ty, 6, |vs|
  {
    var ds := HeldAll(vs, side);
    HeldCons(vs, side);
    CutOutItems(ds, tail);
    var rest := if |vs| == 1 then ['}'] + tail else [','] + (OutItems(ds[1..]) + tail);
    assert rest[1..] == if |vs| == 1 then tail else OutItems(ds[1..]) + tail;
    if |vs| > 1 {
      ParseHeldItems(ty, vs[1..], side, tail);
    }
    if TextCore(ty) && !Whole(vs[0], side) {
      SplitHeld(ty, vs[0], side, rest);
    } else {
      ParseHeld(ty, vs[0], side, rest);
      ParseFirst(ty, vs, side, Out(ds[0]) + rest, rest, tail);
    }
  }

  /** The first element is read, whatever it is read as, and then the others. */
  lemma {:induction false} ParseFirst(ty: Type, vs: seq<Value>, side: Writer, text: string, rest: string, tail: string)
    requires vs != [] && Ends(rest) && (|vs| == 1 ==> rest == ['}'] + tail) && (|vs| > 1 ==> rest[0] == ',')
    requires Parses(Parse(ty, text), Collapse(vs[0]), rest, Whole(vs[0], side))
    requires |vs| > 1 ==> Parses(ParseItems(ty, rest[1..]), CollapseAll(vs[1..]), tail, AllWhole(vs[1..], side))
    ensures var p := ParseItems(ty, text);
            && Parses(p, CollapseAll(vs), tail, AllWhole(vs, side))
            && (p.Parsed? ==> |vs| == 1 || (ParseItems(ty, rest[1..]).Parsed?
                                            && |p.value| == 1 + |ParseItems(ty, rest[1..]).value|))
            && (p.Parsed? && |vs| == 1 ==> |p.value| == 1)
  {
    var all := CollapseAll(vs);
    assert all[0] == Collapse(vs[0]) && all[1..] == CollapseAll(vs[1..]);
    var first, others := Parse(ty, text), ParseItems(ty, rest[1..]);
    if |vs| == 1 {
      assert vs[1..] == [] && (['}'] + tail)[1..] == tail;
      assert AllWhole(vs, side) <==> Whole(vs[0], side);
      assert first.Parsed? ==> [first.value][0] == first.value && [Collapse(vs[0])] == all;
    } else if first.Parsed? && others.Parsed? {
      assert ([first.value] + others.value)[0] == first.value && ([first.value] + others.value)[1..] == others.value;
      assert [Collapse(vs[0])] + CollapseAll(vs[1..]) == all;
    }
  }

  lemma {:induction false} SplitHeld(ty: Type, v: Value, side: Writer, rest: string)
    requires HasType(v, ty) && TextCore(ty) && !Whole(v, side) && Ends(rest)
    ensures var p, more := ParseItems(ty, Out(Held(v, side)) + rest), Remaining(ty, rest);
            && (p.Overran? ==> more.Overran?)
            && (p.Parsed? ==> more.Parsed? && p.rest == more.rest && |p.value| >= |more.value| + 2)
    decreases ty, 5
  {
    if Hollow(v) {
      HollowIsNull(v, side);
    } else {
      var s := FromHeld(ty, v, side);
      SplitText(ty, s, rest);
    }
  }

  /**
    What the server prints is read by the client as the value, up to hollow optionals, exactly when
    no text is split at a semicolon.
   */
  lemma {:induction false} ServerTextIsRead(ty: Type, v: Value, side: Writer)
    requires HasType(v, Array(ty))
    ensures From(Array(ty), Out(Held(v, side))) == Parsed(Collapse(v), []) <==> Whole(v, side)
  {
    ParseHeldArray(ty, v.vs, side, []);
    assert Out(Held(v, side)) + [] == Out(Held(v, side));
  }

  // ---------- there and back ----------

  /**
    An array that the client sends, the server stores and the client reads again: every array whose
    texts reach the server comes back, exactly when no text in it is split on the way back.
   */
  lemma {:induction false} ThereAndBack(ty: Type, v: Value)
    requires HasType(v, Array(ty)) && ValueNulFree(v) && Survives(v)
    ensures var stored := ArrayIn(CStr(Printed(v)));
            && stored.Some?
            && (From(Array(ty), Out(stored.value)) == Parsed(Collapse(v), []) <==> Whole(v, Client))
            && (Whole(v, Client) ==> (From(Array(ty), Out(stored.value)) == Parsed(v, []) <==> Faithful(v)))
  {
    PrintedArrives(v.vs);
    ServerTextIsRead(ty, v, Client);
    CollapseIsIdentity(v);
  }

  // ---------- malformed texts ----------

  /** Additional data behind an array is an exception, whatever it is. */
  lemma {:induction false} AdditionalDataThrows(ty: Type, v: Value, extra: string)
    requires HasType(v, Array(ty)) && extra != []
    ensures From(Array(ty), Printed(v) + extra) == Threw
  {
    ParsePrinted(Array(ty), v, extra);
  }

  /** Behind a quoted element there is a delimiter or the closing brace, or else an exception. */
  lemma {:induction false} OtherDelimitersThrow(ty: Type, s: string, tail: string)
    requires TextCore(ty) && Peek(tail) != ',' && Peek(tail) != ';' && Peek(tail) != '}'
    ensures ParseItems(ty, ['"'] + (EscapeQuoted(s) + ['"']) + tail) == Threw
  {
    var text := ['"'] + (EscapeQuoted(s) + ['"']) + tail;
    Associative(['"'], EscapeQuoted(s) + ['"'], tail);
    Associative(EscapeQuoted(s), ['"'], tail);
    assert text[1..] == EscapeQuoted(s) + (['"'] + tail);
    QuotedOfEscaped(s, tail);
    TextCoreParses(ty, s);
    assert !ty.Array? && Parse(ty, text) == FromPart(ty, Parsed(s, tail));
  }

  /** Nothing is read as an array that does not start with a brace, and nothing is read from a bare NULL. */
  lemma {:induction false} NotAnArray(ty: Type, text: string)
    requires Peek(text) != '{'
    ensures Parse(Array(ty), text) == Threw && From(Array(ty), text) == Threw
  {
  }
}
