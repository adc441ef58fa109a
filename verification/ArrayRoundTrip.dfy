/** What the parser makes of a printed value. */
module ArrayRoundTrip {
  import opened Basics
  import opened ArrayText

  // ---------- what the parser makes of a printed text ----------

  lemma {:induction false} QuotedOfEscaped(s: string, tail: string)
    ensures Quoted(EscapeQuoted(s) + (['"'] + tail)) == Parsed(s, tail)
  {
    if s == [] {
      assert [] + (['"'] + tail) == ['"'] + tail;
      assert (['"'] + tail)[1..] == tail;
    } else {
      QuotedOfEscaped(s[1..], tail);
      Associative(Unit(s[0]), EscapeQuoted(s[1..]), ['"'] + tail);
      assert [s[0]] + s[1..] == s;
    }
  }

  /** A printed element is followed by a comma or by the closing brace. */
  predicate Delimited(tail: string) { tail != [] && EndsUnquoted(tail[0]) }

  lemma {:induction false} UnquotedOfPlain(s: string, tail: string)
    requires Delimited(tail) && Plain(s)
    ensures Unquoted(s + tail) == Parsed(s, tail)
  {
    if s == [] {
      assert s + tail == tail;
    } else {
      assert (s + tail)[1..] == s[1..] + tail;
      UnquotedOfPlain(s[1..], tail);
      assert !EndsUnquoted(s[0]) && [s[0]] + s[1..] == s;
    }
  }

  /** The null element, and only it, is the bare word NULL. */
  lemma {:induction false} ParseNull(ty: Type, tail: string)
    requires !ty.Array? && Delimited(tail)
    ensures Parse(ty, NULL + tail) == if ty.Optional? then Parsed(Nothing, tail) else Threw
  {
    UnquotedOfPlain(NULL, tail);
  }

  /** Whatever the text of an element is, the parser hands exactly that text to `from`. */
  lemma {:induction false} ParseAppended(ty: Type, s: string, tail: string)
    requires !ty.Array? && Delimited(tail)
    ensures Parse(ty, Appended(s) + tail) == FromPart(ty, Parsed(s, tail))
  {
    var text := Appended(s) + tail;
    if s != [] && s != NULL && Plain(s) {
      UnquotedOfPlain(s, tail);
      assert !NeedsQuotes(text[0]);
    } else {
      Associative(['"'], EscapeQuoted(s) + ['"'], tail);
      Associative(EscapeQuoted(s), ['"'], tail);
      assert text[1..] == EscapeQuoted(s) + (['"'] + tail);
      QuotedOfEscaped(s, tail);
    }
  }

  // ---------- the round trip ----------

  /** An engaged optional that holds, at some depth, a disengaged one directly. */
  predicate Hollow(v: Value) { v == Nothing || (v.Just? && Hollow(v.v)) }

  /** What is left of a value when hollow optionals are told apart no longer. */
  function Collapse(v: Value): Value
    decreases v, 1
  {
    if Hollow(v) then Nothing
    else match v
      case Just(w) => Just(Collapse(w))
      case Items(vs) => Items(CollapseAll(vs))
      case _ => v
  }

  function CollapseAll(vs: seq<Value>): (result: seq<Value>)
    ensures |result| == |vs|
    decreases vs, 0
  {
    if vs == [] then [] else [Collapse(vs[0])] + CollapseAll(vs[1..])
  }

  /** A disengaged optional prints as NULL, however many optionals are around it. */
  lemma {:induction false} ElementOfHollow(v: Value)
    requires Hollow(v)
    ensures Element(v) == NULL
  {
    if v.Just? {
      ElementOfHollow(v.v);
    }
  }

  /** A printed value never starts with the closing brace. */
  lemma {:induction false} PrintedStart(v: Value)
    ensures Printed(v) != [] && Printed(v)[0] != '}'
    ensures Element(v) != [] && Element(v)[0] != '}'
  {
    match v
    case Str(s) => assert Plain(s) && s != [] ==> !NeedsQuotes(s[0]);
    case Just(w) => PrintedStart(w);
    case _ =>
  }

  /** What `from` makes of the innermost text of an element. */
  lemma {:induction false} FromElement(ty: Type, v: Value)
    requires HasType(v, ty) && !Hollow(v)
    ensures exists s :: Element(v) == Appended(s) && From(ty, s) == Parsed(Collapse(v), [])
    decreases ty, 4
  {
    match ty
    case Text => assert Element(v) == Appended(v.s) && From(ty, v.s) == Parsed(Collapse(v), []);
    case Optional(t) =>
      FromElement(t, v.v);
      var s :| Element(v.v) == Appended(s) && From(t, s) == Parsed(Collapse(v.v), []);
      assert Element(v) == Appended(s) && From(ty, s) == Parsed(Collapse(v), []);
    case Array(t) =>
      ParsePrinted(ty, v, []);
      assert Printed(v) + [] == Printed(v);
      assert Element(v) == Appended(Printed(v)) && From(ty, Printed(v)) == Parsed(Collapse(v), []);
  }

  /** Framing: the parser takes exactly the printed value and leaves the rest alone. */
  lemma {:induction false} ParsePrinted(ty: Type, v: Value, tail: string)
    requires HasType(v, ty) && (ty.Array? || Delimited(tail))
    ensures Parse(ty, Printed(v) + tail) == Parsed(Collapse(v), tail)
    decreases ty, if ty.Array? then 3 else 5
  {
    if ty.Array? {
      ParsePrintedArray(ty.of, v.vs, tail);
    } else if Hollow(v) {
      ElementOfHollow(v);
      ParseNull(ty, tail);
    } else {
      FromElement(ty, v);
      var s :| Element(v) == Appended(s) && From(ty, s) == Parsed(Collapse(v), []);
      ParseAppended(ty, s, tail);
    }
  }

  lemma {:induction false} ParsePrintedArray(ty: Type, vs: seq<Value>, tail: string)
    requires AllHaveType(vs, ty)
    ensures Parse(Array(ty), Printed(Items(vs)) + tail) == Parsed(Items(CollapseAll(vs)), tail)
    decreases ty, 7
  {
    var text := Printed(Items(vs)) + tail;
    if vs == [] {
      assert text[0] == '{' && text[1..] == ['}'] + tail && text[2..] == tail;
    } else {
      assert text[1..] == PrintedItems(vs, '}') + tail;
      ParsePrintedItems(ty, vs, tail);
      PrintedStart(vs[0]);
    }
  }

  lemma {:induction false} ParsePrintedItems(ty: Type, vs: seq<Value>, tail: string)
    requires AllHaveType(vs, ty) && vs != []
    ensures ParseItems(ty, PrintedItems(vs, '}') + tail) == Parsed(CollapseAll(vs), tail)
    decreases ty, 6, |vs|
  {
    if |vs| == 1 {
      Associative(Printed(vs[0]), ['}'], tail);
      ParsePrinted(ty, vs[0], ['}'] + tail);
      assert (['}'] + tail)[1..] == tail;
      assert vs[1..] == [] && CollapseAll(vs) == [Collapse(vs[0])] + [] == [Collapse(vs[0])];
    } else {
      var more := PrintedItems(vs[1..], '}') + tail;
      Associative(Printed(vs[0]), [','] + PrintedItems(vs[1..], '}'), tail);
      Associative([','], PrintedItems(vs[1..], '}'), tail);
      ParsePrinted(ty, vs[0], [','] + more);
      assert ([','] + more)[1..] == more;
      ParsePrintedItems(ty, vs[1..], tail);
    }
  }

  /** No optional in the value holds a disengaged one directly. */
  predicate Faithful(v: Value)
    decreases v, 1
  {
    match v
    case Just(w) => !Hollow(w) && Faithful(w)
    case Items(vs) => AllFaithful(vs)
    case _ => true
  }

  predicate AllFaithful(vs: seq<Value>)
    decreases vs, 0
  {
    vs == [] || (Faithful(vs[0]) && AllFaithful(vs[1..]))
  }

  lemma {:induction false} CollapseIsIdentity(v: Value)
    ensures Collapse(v) == v <==> Faithful(v)
    decreases v, 1
  {
    match v
    case Just(w) => CollapseIsIdentity(w);
    case Items(vs) => CollapseAllIsIdentity(vs);
    case _ =>
  }

  lemma {:induction false} CollapseAllIsIdentity(vs: seq<Value>)
    ensures CollapseAll(vs) == vs <==> AllFaithful(vs)
    decreases vs, 0
  {
    if vs != [] {
      CollapseIsIdentity(vs[0]);
      CollapseAllIsIdentity(vs[1..]);
      assert [vs[0]] + vs[1..] == vs;
      assert CollapseAll(vs)[1..] == CollapseAll(vs[1..]) && CollapseAll(vs)[0] == Collapse(vs[0]);
    }
  }

  /** The characters up to the first NUL: what is left of a string that is passed on as a C string. */
  function CStr(s: string): string {
    if s == [] || s[0] == NUL then [] else [s[0]] + CStr(s[1..])
  }

  lemma {:induction false} CStrOfNulFree(s: string)
    requires NulFree(s)
    ensures CStr(s) == s
  {
    if s != [] {
      CStrOfNulFree(s[1..]);
      assert [s[0]] + s[1..] == s;
    }
  }

  predicate ValueNulFree(v: Value)
    decreases v, 1
  {
    match v
    case Str(s) => NulFree(s)
    case Nothing => true
    case Just(w) => ValueNulFree(w)
    case Items(vs) => AllNulFree(vs)
  }

  predicate AllNulFree(vs: seq<Value>)
    decreases vs, 0
  {
    vs == [] || (ValueNulFree(vs[0]) && AllNulFree(vs[1..]))
  }

  lemma {:induction false} AppendedNulFree(s: string)
    requires NulFree(s)
    ensures NulFree(EscapeQuoted(s)) && NulFree(Appended(s))
  {
    if s != [] {
      AppendedNulFree(s[1..]);
    }
  }

  lemma {:induction false} PrintedNulFree(v: Value)
    requires ValueNulFree(v)
    ensures NulFree(Printed(v)) && NulFree(Element(v))
    decreases v, 1
  {
    match v
    case Str(s) => AppendedNulFree(s);
    case Nothing =>
    case Just(w) => PrintedNulFree(w);
    case Items(vs) =>
      if vs != [] {
        PrintedItemsNulFree(vs);
      }
      AppendedNulFree(Printed(v));
  }

  lemma {:induction false} PrintedItemsNulFree(vs: seq<Value>)
    requires AllNulFree(vs) && vs != []
    ensures NulFree(PrintedItems(vs, '}'))
    decreases vs, 0
  {
    PrintedNulFree(vs[0]);
    if |vs| > 1 {
      PrintedItemsNulFree(vs[1..]);
    }
  }

  /**
    The round trip, for every type built from strings, optionals and containers and for every
    NUL-free value of it: reading the printed text gives the value back, up to optionals that hold
    a disengaged optional, and it consumes all of the text. The very same value comes back
    exactly when there is no such optional in it.
   */
  lemma {:induction false} RoundTrip(ty: Type, v: Value)
    requires HasType(v, Array(ty)) && ValueNulFree(v)
    ensures From(Array(ty), CStr(Printed(v))) == Parsed(Collapse(v), [])
    ensures From(Array(ty), CStr(Printed(v))) == Parsed(v, []) <==> Faithful(v)
  {
    PrintedNulFree(v);
    CStrOfNulFree(Printed(v));
    ParsePrinted(Array(ty), v, []);
    assert Printed(v) + [] == Printed(v);
    CollapseIsIdentity(v);
  }

  /** Two nested optionals: the engaged outer one is lost. */
  lemma NestedOptionalIsLost()
    ensures HasType(Items([Just(Nothing)]), Array(Optional(Optional(Text))))
    ensures From(Array(Optional(Optional(Text))), Printed(Items([Just(Nothing)])))
         == Parsed(Items([Nothing]), [])
  {
    var vs := [Just(Nothing)];
    var ty := Optional(Optional(Text));
    assert HasType(Nothing, Optional(Text)) && HasType(vs[0], ty) && vs[1..] == [];
    ParsePrinted(Array(ty), Items(vs), []);
    assert Printed(Items(vs)) + [] == Printed(Items(vs));
    assert CollapseAll(vs) == [Nothing] + [] == [Nothing];
  }
}
