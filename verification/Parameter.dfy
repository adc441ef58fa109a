/**
  Statement parameters: `transaction_base::send` with arguments known at compile time, and
  `parameter< Max >`, which collects arguments in four fixed arrays.
 */
module Parameter {
  import opened Basics
  import opened Gen

  /** What one column of an argument contributes to the four arrays of a statement. */
  datatype Column = Column(oid: int, value: Option<string>, length: int, format: int)

  /** The arguments of `PQsendQueryParams`. */
  datatype Message = Message(types: seq<int>, values: seq<Option<string>>, lengths: seq<int>, formats: seq<int>)

  // ---------- direct parameters ----------

  /** A column of the argument that `gen` selects, as in `get< Os >( tuple ).template value< Is >()`. */
  function Selected(args: seq<seq<Column>>, flat: nat): Column
    requires flat < |Concat(args)|
  {
    ConcatAt(args, flat);
    args[Outer(Sizes(args), flat)][Inner(Sizes(args), flat)]
  }

  /** `send_traits` and `send_indexed`: four pack expansions over the flat columns. */
  function SendTraits(args: seq<seq<Column>>): Message {
    var n := |Concat(args)|;
    Message(
      seq(n, i requires 0 <= i < n => Selected(args, i).oid),
      seq(n, i requires 0 <= i < n => Selected(args, i).value),
      seq(n, i requires 0 <= i < n => Selected(args, i).length),
      seq(n, i requires 0 <= i < n => Selected(args, i).format))
  }

  /** The four arrays that hold `columns`. */
  predicate Carries(m: Message, columns: seq<Column>) {
    && |m.types| == |m.values| == |m.lengths| == |m.formats| == |columns|
    && forall i :: 0 <= i < |columns| ==> Column(m.types[i], m.values[i], m.lengths[i], m.formats[i]) == columns[i]
  }

  /** A direct statement carries the columns of its arguments, one argument after the other. */
  lemma {:induction false} SendTraitsCarriesAll(args: seq<seq<Column>>)
    ensures Carries(SendTraits(args), Concat(args))
  {
    forall i | 0 <= i < |Concat(args)| ensures Selected(args, i) == Concat(args)[i] {
      ConcatAt(args, i);
    }
  }

  // ---------- what binding a list of arguments amounts to ----------

  /** An argument of `bind`: columns, or once more what has been bound so far. */
  datatype Piece = Columns(columns: seq<Column>) | Itself

  function Added(bound: seq<Column>, piece: Piece): seq<Column> {
    if piece.Itself? then bound else piece.columns
  }

  /** The bound columns after `bind`, and whether it threw `length_error`. */
  function BindAll(bound: seq<Column>, max: nat, pieces: seq<Piece>): (r: (seq<Column>, bool))
    ensures |bound| <= max ==> |r.0| <= max
    ensures bound <= r.0
    decreases |pieces|
  {
    if pieces == [] then (bound, false)
    else
      var added := Added(bound, pieces[0]);
      if |bound| + |added| > max then (bound, true)
      else
        assert bound <= bound + added;
        BindAll(bound + added, max, pieces[1..])
  }

  function AsPieces(args: seq<seq<Column>>): (pieces: seq<Piece>)
    ensures |pieces| == |args|
  {
    seq(|args|, i requires 0 <= i < |args| => Columns(args[i]))
  }

  lemma Regroup(a: seq<Column>, b: seq<Column>, c: seq<Column>)
    ensures (a + b) + c == a + (b + c)
  {
  }

  lemma {:induction false} BindFirst(bound: seq<Column>, max: nat, args: seq<seq<Column>>)
    requires args != []
    ensures |bound| + |args[0]| > max ==> BindAll(bound, max, AsPieces(args)) == (bound, true)
    ensures |bound| + |args[0]| <= max ==>
              BindAll(bound, max, AsPieces(args)) == BindAll(bound + args[0], max, AsPieces(args[1..]))
  {
    assert AsPieces(args)[1..] == AsPieces(args[1..]) && AsPieces(args)[0] == Columns(args[0]);
  }

  /** When everything fits, nothing is thrown and the columns are appended in order; else it throws. */
  lemma {:induction false} BindIsConcat(bound: seq<Column>, max: nat, args: seq<seq<Column>>)
    requires |bound| <= max
    ensures !BindAll(bound, max, AsPieces(args)).1 <==> |bound| + |Concat(args)| <= max
    ensures |bound| + |Concat(args)| <= max ==> BindAll(bound, max, AsPieces(args)).0 == bound + Concat(args)
    decreases |args|
  {
    if args == [] {
      assert bound + [] == bound;
    } else {
      BindFirst(bound, max, args);
      if |bound| + |args[0]| <= max {
        BindIsConcat(bound + args[0], max, args[1..]);
        Regroup(bound, args[0], Concat(args[1..]));
      }
    }
  }

  /** What stays bound after a `length_error`: the arguments before the first that does not fit. */
  lemma {:induction false} BindKeepsFittingPrefix(bound: seq<Column>, max: nat, args: seq<seq<Column>>)
    returns (k: nat)
    requires |bound| <= max
    ensures k <= |args| && |bound| + |Concat(args[..k])| <= max
    ensures k < |args| ==> |bound| + |Concat(args[..k])| + |args[k]| > max
    ensures BindAll(bound, max, AsPieces(args)) == (bound + Concat(args[..k]), k < |args|)
    decreases |args|
  {
    if args == [] {
      k := 0;
      assert bound + [] == bound;
    } else {
      BindFirst(bound, max, args);
      if |bound| + |args[0]| > max {
        k := 0;
        assert bound + [] == bound;
      } else {
        var n := BindKeepsFittingPrefix(bound + args[0], max, args[1..]);
        k := n + 1;
        assert args[..k][1..] == args[1..][..n];
        Regroup(bound, args[0], Concat(args[1..][..n]));
      }
    }
  }

  // ---------- the class ----------

  datatype Argument = Direct(columns: seq<Column>) | Dynamic(p: Parameter)

  /** How many arguments `bind` binds before one does not fit. */
  function Fitting(bound: seq<Column>, max: nat, pieces: seq<Piece>): (k: nat)
    ensures k <= |pieces|
    ensures k < |pieces| <==> BindAll(bound, max, pieces).1
    decreases |pieces|
  {
    if pieces == [] then 0
    else
      var added := Added(bound, pieces[0]);
      if |bound| + |added| > max then 0 else 1 + Fitting(bound + added, max, pieces[1..])
  }

  /** Those of the first `k` arguments that are stored, and not only copied from another object. */
  function Kept(args: seq<Argument>, k: nat): seq<seq<Column>>
    requires k <= |args|
  {
    if k == 0 then []
    else (if args[0].Direct? then [args[0].columns] else []) + Kept(args[1..], k - 1)
  }

  lemma {:induction false} NothingKeptIff(args: seq<Argument>, k: nat)
    requires k <= |args|
    ensures Kept(args, k) == [] <==> forall i :: 0 <= i < k ==> args[i].Dynamic?
  {
    if k > 0 {
      NothingKeptIff(args[1..], k - 1);
      assert forall i :: 0 <= i < k - 1 ==> args[1..][i] == args[i + 1];
    }
  }

  lemma {:induction false} KeptFirst(args: seq<Argument>, n: nat, held: seq<seq<Column>>)
    requires n < |args|
    ensures held + Kept(args, n + 1)
            == (if args[0].Direct? then held + [args[0].columns] else held) + Kept(args[1..], n)
  {
    var rest := Kept(args[1..], n);
    if args[0].Direct? {
      assert held + ([args[0].columns] + rest) == (held + [args[0].columns]) + rest;
    } else {
      assert [] + rest == rest;
    }
  }

  lemma {:induction false} FirstIsKept(bound: seq<Column>, max: nat, args: seq<Argument>, pieces: seq<Piece>,
                                       held: seq<seq<Column>>)
    requires |args| == |pieces| > 0 && |bound| + |Added(bound, pieces[0])| <= max
    ensures held + Kept(args, Fitting(bound, max, pieces))
            == (if args[0].Direct? then held + [args[0].columns] else held)
               + Kept(args[1..], Fitting(bound + Added(bound, pieces[0]), max, pieces[1..]))
  {
    KeptFirst(args, Fitting(bound + Added(bound, pieces[0]), max, pieces[1..]), held);
  }

  /** The pack expansion of one of the four assignments in `fill`. */
  method Store<T>(a: array<T>, at: nat, xs: seq<T>)
    requires at + |xs| <= a.Length
    modifies a
    ensures forall i :: 0 <= i < |xs| ==> a[at + i] == xs[i]
    ensures forall i :: 0 <= i < at ==> a[i] == old(a[i])
  {
    for n := 0 to |xs|
      invariant forall i :: 0 <= i < n ==> a[at + i] == xs[i]
      invariant forall i :: 0 <= i < at ==> a[i] == old(a[i])
    {
      a[at + n] := xs[n];
    }
  }

  class Parameter {
    const max: nat

    var pos: nat
    var params: array<seq<Column>>

    var size: nat
    var types: array<int>
    var values: array<Option<string>>
    var lengths: array<int>
    var formats: array<int>

    /** The columns bound since the last reset, and the arguments whose traits are owned. */
    ghost var bound: seq<Column>
    ghost var held: seq<seq<Column>>

    /** All arguments that were ever stored in this object, and all that were released by it. */
    ghost var stored: seq<seq<Column>>
    ghost var released: seq<seq<Column>>

    ghost function Repr(): set<object>
      reads this
    {
      {params as object, types, values, lengths, formats}
    }

    /** Entry `i` of the four arrays. */
    ghost predicate Entry(i: nat, c: Column)
      requires i < types.Length && i < values.Length && i < lengths.Length && i < formats.Length
      reads this, types, values, lengths, formats
    {
      types[i] == c.oid && values[i] == c.value && lengths[i] == c.length && formats[i] == c.format
    }

    ghost predicate Shaped()
      reads this
    {
      && types != lengths && types != formats && lengths != formats
      && params.Length == types.Length == values.Length == lengths.Length == formats.Length == max
    }

    ghost predicate Valid()
      reads this, Repr()
    {
      && Shaped() && pos <= size <= max
      && |bound| == size && Entries(bound)
      && |held| == pos && (forall i :: 0 <= i < pos ==> params[i] == held[i])
      && stored == released + held
    }

    constructor (max: nat)
      ensures Valid() && this.max == max && bound == [] && held == [] && stored == [] && released == []
      ensures fresh(Repr())
    {
      this.max := max;
      pos, size := 0, 0;
      params := new seq<Column>[max](_ => []);
      types := new int[max](_ => 0);
      values := new Option<string>[max](_ => None);
      lengths := new int[max](_ => 0);
      formats := new int[max](_ => 0);
      bound, held, stored, released := [], [], [], [];
    }

    method Fill(columns: seq<Column>)
      requires Shaped() && size + |columns| <= max
      modifies types, values, lengths, formats
      ensures forall i :: 0 <= i < |columns| ==> Entry(size + i, columns[i])
      ensures forall i :: 0 <= i < size ==>
                types[i] == old(types[i]) && values[i] == old(values[i])
                && lengths[i] == old(lengths[i]) && formats[i] == old(formats[i])
    {
      var oids: seq<int> := seq(|columns|, i requires 0 <= i < |columns| => columns[i].oid);
      var texts: seq<Option<string>> := seq(|columns|, i requires 0 <= i < |columns| => columns[i].value);
      var sizes: seq<int> := seq(|columns|, i requires 0 <= i < |columns| => columns[i].length);
      var kinds: seq<int> := seq(|columns|, i requires 0 <= i < |columns| => columns[i].format);
      Store(types, size, oids);
      Store(values, size, texts);
      Store(lengths, size, sizes);
      Store(formats, size, kinds);
      forall i | 0 <= i < |columns| ensures Entry(size + i, columns[i]) {
        assert types[size + i] == oids[i] && values[size + i] == texts[i];
        assert lengths[size + i] == sizes[i] && formats[size + i] == kinds[i];
      }
    }

    /** The first entries of the four arrays. */
    ghost predicate Entries(columns: seq<Column>)
      reads this, types, values, lengths, formats
    {
      && |columns| <= types.Length && |columns| <= values.Length
      && |columns| <= lengths.Length && |columns| <= formats.Length
      && forall i :: 0 <= i < |columns| ==> Entry(i, columns[i])
    }

    lemma EntriesAppended(before: seq<Column>, columns: seq<Column>)
      requires Shaped() && Entries(before) && |before| + |columns| <= max
      requires forall i :: 0 <= i < |columns| ==> Entry(|before| + i, columns[i])
      ensures Entries(before + columns)
    {
      forall i | |before| <= i < |before| + |columns| ensures Entry(i, (before + columns)[i]) {
        assert Entry(|before| + (i - |before|), columns[i - |before|]);
      }
    }

    /** `bind_impl` of an argument with traits: it is kept, and its columns are appended, or nothing changes. */
    method BindDirect(columns: seq<Column>) returns (thrown: bool)
      requires Valid() && columns != []
      modifies this, Repr()
      ensures Valid() && Repr() == old(Repr())
      ensures thrown == (|old(bound)| + |columns| > max)
      ensures bound == if thrown then old(bound) else old(bound) + columns
      ensures held == if thrown then old(held) else old(held) + [columns]
      ensures released == old(released)
    {
      if size + |columns| > max {
        return true;
      }
      Fill(columns);
      EntriesAppended(bound, columns);
      params[pos] := columns;
      pos := pos + 1;
      size := size + |columns|;
      bound := bound + columns;
      held := held + [columns];
      stored := stored + [columns];
      return false;
    }

    /** Another parameter object without an array in common with this one, or this one itself. */
    ghost predicate Apart(p: Parameter)
      reads this, p
    {
      p == this || (p.Repr() !! Repr() && p !in Repr() && this !in p.Repr())
    }

    /** The body of the loop of `bind_impl`. */
    method CopyEntry(p: Parameter, n: nat, ghost mine: seq<Column>, ghost theirs: seq<Column>)
      requires Shaped() && p.Shaped() && Apart(p) && n < p.size <= p.max && size + n < max
      requires |mine| == size + n && Entries(mine) && |theirs| == p.size && p.Entries(theirs)
      modifies types, values, lengths, formats
      ensures Entries(mine + [theirs[n]]) && p.Entries(theirs)
    {
      assert p.Entry(n, theirs[n]);
      types[size + n] := p.types[n];
      values[size + n] := p.values[n];
      lengths[size + n] := p.lengths[n];
      formats[size + n] := p.formats[n];
      assert Entry(size + n, theirs[n]);
      assert Entries(mine);
    }

    /** The loop of `bind_impl` over the entries of `p`. */
    method CopyEntries(p: Parameter)
      requires Valid() && p.Valid() && Apart(p) && size + p.size <= max
      modifies types, values, lengths, formats
      ensures Entries(bound + p.bound)
    {
      assert bound + p.bound[..0] == bound;
      for n := 0 to p.size
        invariant Entries(bound + p.bound[..n]) && p.Entries(p.bound)
      {
        CopyEntry(p, n, bound + p.bound[..n], p.bound);
        assert bound + p.bound[..n] + [p.bound[n]] == bound + p.bound[..n + 1];
      }
      assert p.bound[..p.size] == p.bound;
    }

    /** `bind_impl` of a parameter object, which may be this one. */
    method BindParameter(p: Parameter) returns (thrown: bool)
      requires Valid() && p.Valid() && Apart(p)
      modifies this, Repr()
      ensures Valid() && Repr() == old(Repr())
      ensures thrown == (|old(bound)| + |old(p.bound)| > max)
      ensures bound == if thrown then old(bound) else old(bound) + old(p.bound)
      ensures held == old(held) && released == old(released)
    {
      var columns := p.size;
      if size + columns > max {
        return true;
      }
      CopyEntries(p);
      bound := bound + p.bound;
      size := size + columns;
      return false;
    }

    /** What an argument of `bind` appends. */
    ghost function PieceOf(a: Argument): Piece
      reads if a.Dynamic? && a.p != this then {a.p} else {}
    {
      if a.Direct? then Columns(a.columns) else if a.p == this then Itself else Columns(a.p.bound)
    }

    /** Every parameter object among the arguments is intact, and this one or apart from it. */
    ghost predicate Usable(a: Argument)
      reads this
      reads if a.Dynamic? then {a.p} + a.p.Repr() else {}
    {
      if a.Direct? then a.columns != [] else Apart(a.p) && (a.p != this ==> a.p.Valid())
    }

    /** Binding one argument leaves the others as they were. */
    twostate lemma StillUsable(a: Argument)
      requires old(Usable(a)) && Repr() == old(Repr())
      requires a.Dynamic? && a.p != this ==> unchanged(a.p) && unchanged(old(a.p.Repr()))
      ensures Usable(a) && PieceOf(a) == old(PieceOf(a))
    {
    }

    /** `bind_impl` of one argument. */
    method BindImpl(a: Argument) returns (thrown: bool)
      requires Valid() && Usable(a)
      modifies this, Repr()
      ensures Valid() && Repr() == old(Repr())
      ensures thrown == (|old(bound)| + |Added(old(bound), old(PieceOf(a)))| > max)
      ensures bound == if thrown then old(bound) else old(bound) + Added(old(bound), old(PieceOf(a)))
      ensures held == if thrown || a.Dynamic? then old(held) else old(held) + [a.columns]
      ensures released == old(released)
    {
      match a
      case Direct(columns) => thrown := BindDirect(columns);
      case Dynamic(p) => thrown := BindParameter(p);
    }

    /** `bind`: the arguments one after the other, until one of them does not fit. */
    method Bind(args: seq<Argument>, ghost pieces: seq<Piece>) returns (thrown: bool)
      requires Valid() && |pieces| == |args|
      requires forall i :: 0 <= i < |args| ==> Usable(args[i]) && PieceOf(args[i]) == pieces[i]
      modifies this, Repr()
      ensures Valid() && Repr() == old(Repr())
      ensures (bound, thrown) == BindAll(old(bound), max, pieces)
      ensures held == old(held) + Kept(args, Fitting(old(bound), max, pieces))
      ensures released == old(released)
      decreases |args|
    {
      if |args| == 0 {
        return false;
      }
      thrown := BindImpl(args[0]);
      if !thrown {
        FirstIsKept(old(bound), max, args, pieces, old(held));
        var rest := args[1..];
        forall i | 0 <= i < |rest| ensures Usable(rest[i]) && PieceOf(rest[i]) == pieces[1..][i] {
          var a := args[i + 1];
          assert rest[i] == a && old(PieceOf(a)) == pieces[i + 1];
          StillUsable(a);
        }
        thrown := Bind(rest, pieces[1..]);
      }
    }

    /** The loop that releases the owned arguments, of `reset` and of the destructor. */
    method ReleaseAll()
      requires Valid()
      modifies this`pos, this`held, this`released
      ensures Valid() && pos == 0 && held == [] && released == stored
    {
      ghost var before := released;
      for i := 0 to pos
        modifies this`released
        invariant released == before + held[..i]
      {
        released := released + [params[i]];
        assert held[..i + 1] == held[..i] + [params[i]];
      }
      assert held[..pos] == held;
      pos := 0;
      held := [];
    }

    /** The destructor: by now every argument that was ever stored is released, once, in order. */
    method Destroy()
      requires Valid()
      modifies this`pos, this`held, this`released
      ensures released == stored && held == []
    {
      ReleaseAll();
    }

    /** `reset`: every owned argument is released before the new ones are bound. */
    method Reset(args: seq<Argument>, ghost pieces: seq<Piece>) returns (thrown: bool)
      requires Valid() && |pieces| == |args|
      requires forall i :: 0 <= i < |args| ==> Usable(args[i]) && PieceOf(args[i]) == pieces[i]
      modifies this, Repr()
      ensures Valid() && Repr() == old(Repr())
      ensures released == old(stored)
      ensures (bound, thrown) == BindAll([], max, pieces)
      ensures held == Kept(args, Fitting([], max, pieces))
    {
      ReleaseAll();
      size := 0;
      bound := [];
      thrown := Bind(args, pieces);
    }

    /** The dynamic `send`: the first `size` entries of the arrays. */
    method Send() returns (m: Message)
      requires Valid()
      ensures Carries(m, bound)
    {
      m := Message(types[..size], values[..size], lengths[..size], formats[..size]);
      forall i | 0 <= i < |bound|
        ensures Column(m.types[i], m.values[i], m.lengths[i], m.formats[i]) == bound[i]
      {
        assert Entry(i, bound[i]);
      }
    }
  }
  // ---------- sending ----------

  /** `parameter_size< As... >` */
  function ParameterSize(args: seq<Argument>): nat {
    if args == [] then 0
    else (if args[0].Direct? then |args[0].columns| else args[0].p.max) + ParameterSize(args[1..])
  }

  /** The columns that an argument of `send` stands for. */
  ghost predicate StandsFor(a: Argument, columns: seq<Column>)
    reads if a.Dynamic? then {a.p} + a.p.Repr() else {}
  {
    if a.Direct? then columns != [] && columns == a.columns else a.p.Valid() && columns == a.p.bound
  }

  lemma {:induction false} EnoughRoom(args: seq<Argument>, columns: seq<seq<Column>>)
    requires |args| == |columns| && forall i :: 0 <= i < |args| ==> StandsFor(args[i], columns[i])
    ensures |Concat(columns)| <= ParameterSize(args)
  {
    if args != [] {
      assert StandsFor(args[0], columns[0]);
      EnoughRoom(args[1..], columns[1..]);
    }
  }

  lemma {:induction false} AllAreBound(args: seq<Argument>, columns: seq<seq<Column>>)
    requires |args| == |columns| && forall i :: 0 <= i < |args| ==> StandsFor(args[i], columns[i])
    ensures BindAll([], ParameterSize(args), AsPieces(columns)) == (Concat(columns), false)
  {
    EnoughRoom(args, columns);
    BindIsConcat([], ParameterSize(args), columns);
    assert [] + Concat(columns) == Concat(columns);
  }

  lemma {:induction false} SentAlike(m: Message, columns: seq<seq<Column>>)
    requires Carries(m, Concat(columns))
    ensures m == SendTraits(columns)
  {
    SendTraitsCarriesAll(columns);
  }

  /**
    `send` with parameter objects among its arguments: everything fits, and the statement is the one
    that a direct `send` of all the columns makes.
   */
  method SendArguments(args: seq<Argument>, ghost columns: seq<seq<Column>>) returns (m: Message)
    requires |args| == |columns| && forall i :: 0 <= i < |args| ==> StandsFor(args[i], columns[i])
    ensures m == SendTraits(columns)
  {
    AllAreBound(args, columns);
    var p := new Parameter(ParameterSize(args));
    ghost var pieces := AsPieces(columns);
    forall i | 0 <= i < |args| ensures p.Usable(args[i]) && p.PieceOf(args[i]) == pieces[i] {
      assert StandsFor(args[i], columns[i]);
    }
    var thrown := p.Bind(args, pieces);
    m := p.Send();
    SentAlike(m, columns);
  }

  /**
    `parameter( as... )`. When `bind` throws there is no object whose destructor could run, and the
    arguments that are stored by then are never released.
   */
  method Construct(max: nat, args: seq<Argument>, ghost columns: seq<seq<Column>>)
    returns (p: Parameter?, ghost leaked: seq<seq<Column>>)
    requires |args| == |columns| && forall i :: 0 <= i < |args| ==> StandsFor(args[i], columns[i])
    ensures p == null <==> |Concat(columns)| > max
    ensures p != null ==>
              fresh(p) && p.Valid() && p.max == max && p.bound == Concat(columns) && p.stored == Kept(args, |args|)
    ensures var k := Fitting([], max, AsPieces(columns));
            leaked == (if p == null then Kept(args, k) else [])
            && (leaked != [] <==> k < |args| && exists i :: 0 <= i < k && args[i].Direct?)
  {
    var q := new Parameter(max);
    ghost var pieces := AsPieces(columns);
    forall i | 0 <= i < |args| ensures q.Usable(args[i]) && q.PieceOf(args[i]) == pieces[i] {
      assert StandsFor(args[i], columns[i]);
    }
    var thrown := q.Bind(args, pieces);
    BindIsConcat([], max, columns);
    assert [] + Concat(columns) == Concat(columns);
    NothingKeptIff(args, Fitting([], max, pieces));
    if thrown {
      p, leaked := null, q.held;
    } else {
      p, leaked := q, [];
    }
  }
}
