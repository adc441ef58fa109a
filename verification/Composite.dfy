/**
  Composite values: pairs, tuples and optionals are flattened into the columns of a statement or of
  a row of `table_writer`, and rebuilt from the columns of a row by slicing it.
 */
module Composite {
  import opened Basics
  import opened Gen

  /** One column: its text, or NULL. */
  type Cell = Option<string>

  datatype Shape = Leaf | Optional(of: Shape) | Pair(first: Shape, second: Shape) | Tuple(items: seq<Shape>)

  datatype Value =
    | Text(s: string) | Nothing | Just(v: Value)
    | PairOf(first: Value, second: Value) | TupleOf(items: seq<Value>)

  /** `result_traits_size` and `parameter_traits::columns` */
  function Size(shape: Shape): nat
    decreases shape, 1
  {
    match shape
    case Leaf => 1
    case Optional(t) => Size(t)
    case Pair(t, u) => Size(t) + Size(u)
    case Tuple(ts) => Sum(SizesOf(ts))
  }

  function SizesOf(shapes: seq<Shape>): (ns: seq<nat>)
    ensures |ns| == |shapes|
    decreases shapes, 0
  {
    if shapes == [] then [] else [Size(shapes[0])] + SizesOf(shapes[1..])
  }

  /** The types that have a reader: a tuple of one element only over a one-column type. */
  predicate Readable(shape: Shape)
    decreases shape, 1
  {
    match shape
    case Leaf => true
    case Optional(t) => Readable(t)
    case Pair(t, u) => Readable(t) && Readable(u)
    case Tuple(ts) => ts != [] && AllReadable(ts) && (|ts| == 1 ==> Size(ts[0]) == 1)
  }

  predicate AllReadable(shapes: seq<Shape>)
    decreases shapes, 0
  {
    shapes == [] || (Readable(shapes[0]) && AllReadable(shapes[1..]))
  }

  predicate HasShape(v: Value, shape: Shape)
    decreases shape, 1
  {
    match shape
    case Leaf => v.Text?
    case Optional(t) => v.Nothing? || (v.Just? && HasShape(v.v, t))
    case Pair(t, u) => v.PairOf? && HasShape(v.first, t) && HasShape(v.second, u)
    case Tuple(ts) => v.TupleOf? && HaveShapes(v.items, ts)
  }

  predicate HaveShapes(vs: seq<Value>, shapes: seq<Shape>)
    decreases shapes, 0
  {
    |vs| == |shapes| && (shapes == [] || (HasShape(vs[0], shapes[0]) && HaveShapes(vs[1..], shapes[1..])))
  }

  /** The columns of a value, from left to right. */
  function Cells(v: Value, shape: Shape): (cells: seq<Cell>)
    requires HasShape(v, shape)
    ensures |cells| == Size(shape)
    decreases shape, 1
  {
    match shape
    case Leaf => [Some(v.s)]
    case Optional(t) => if v.Nothing? then seq(Size(t), _ => None) else Cells(v.v, t)
    case Pair(t, u) => Cells(v.first, t) + Cells(v.second, u)
    case Tuple(ts) =>
      ConcatLength(CellsOf(v.items, ts));
      Concat(CellsOf(v.items, ts))
  }

  function CellsOf(vs: seq<Value>, shapes: seq<Shape>): (columns: seq<seq<Cell>>)
    requires HaveShapes(vs, shapes)
    ensures |columns| == |shapes| && Sizes(columns) == SizesOf(shapes)
    decreases shapes, 0
  {
    if shapes == [] then [] else
      var columns := [Cells(vs[0], shapes[0])] + CellsOf(vs[1..], shapes[1..]);
      assert Sizes(columns) == [Size(shapes[0])] + Sizes(CellsOf(vs[1..], shapes[1..]));
      columns
  }

  // ---------- the parameter side ----------

  /** `value< I >` of pairs, tuples and optionals: forwarded to an element through `gen`. */
  function Column(v: Value, shape: Shape, flat: nat): Cell
    requires HasShape(v, shape) && flat < Size(shape)
    decreases shape, 1
  {
    match shape
    case Leaf => Some(v.s)
    case Optional(t) => if v.Nothing? then None else Column(v.v, t, flat)
    case Pair(t, u) =>
      var ns := [Size(t), Size(u)];
      PairIsLocated(t, u, flat);
      if Outer(ns, flat) == 0 then Column(v.first, t, Inner(ns, flat)) else Column(v.second, u, Inner(ns, flat))
    case Tuple(ts) =>
      var ns := SizesOf(ts);
      FlatIndexIsBijective(ns);
      ColumnOfItem(v.items, ts, Outer(ns, flat), Inner(ns, flat))
  }

  /** `std::get< O >( m_tuple ).template value< I >()` */
  function ColumnOfItem(vs: seq<Value>, shapes: seq<Shape>, o: nat, i: nat): Cell
    requires HaveShapes(vs, shapes) && o < |shapes| && i < SizesOf(shapes)[o]
    decreases shapes, 0
  {
    if o == 0 then Column(vs[0], shapes[0], i) else ColumnOfItem(vs[1..], shapes[1..], o - 1, i)
  }

  lemma {:induction false} PairIsLocated(t: Shape, u: Shape, flat: nat)
    requires flat < Size(t) + Size(u)
    ensures var ns := [Size(t), Size(u)];
            && Outer(ns, flat) == (if flat < Size(t) then 0 else 1)
            && Inner(ns, flat) == (if flat < Size(t) then flat else flat - Size(t))
  {
    var ns: seq<nat> := [Size(t), Size(u)];
    assert ns[..0] == [] && ns[..1] == [Size(t)] && Sum([Size(t)]) == Size(t) + Sum([]);
    FoldsLocate(ns, flat, if flat < Size(t) then 0 else 1);
  }

  /** Every column that is sent is the column of the value at the same place. */
  lemma {:induction false} ColumnIsCell(v: Value, shape: Shape, flat: nat)
    requires HasShape(v, shape) && flat < Size(shape)
    ensures Column(v, shape, flat) == Cells(v, shape)[flat]
    decreases shape, 1
  {
    match shape
    case Leaf =>
    case Optional(t) =>
      if v.Just? {
        ColumnIsCell(v.v, t, flat);
      }
    case Pair(t, u) =>
      PairIsLocated(t, u, flat);
      if flat < Size(t) {
        ColumnIsCell(v.first, t, flat);
      } else {
        ColumnIsCell(v.second, u, flat - Size(t));
      }
    case Tuple(ts) =>
      var columns := CellsOf(v.items, ts);
      ConcatLength(columns);
      ConcatAt(columns, flat);
      FlatIndexIsBijective(SizesOf(ts));
      ColumnOfItemIsCell(v.items, ts, Outer(SizesOf(ts), flat), Inner(SizesOf(ts), flat));
  }

  lemma {:induction false} ColumnOfItemIsCell(vs: seq<Value>, shapes: seq<Shape>, o: nat, i: nat)
    requires HaveShapes(vs, shapes) && o < |shapes| && i < SizesOf(shapes)[o]
    ensures i < |CellsOf(vs, shapes)[o]| && ColumnOfItem(vs, shapes, o, i) == CellsOf(vs, shapes)[o][i]
    decreases shapes, 0
  {
    if o == 0 {
      ColumnIsCell(vs[0], shapes[0], i);
    } else {
      ColumnOfItemIsCell(vs[1..], shapes[1..], o - 1, i);
    }
  }

  // ---------- the result side ----------

  /** The results of a reader, and the exceptions it may throw. */
  datatype Read<+T> = Done(value: T) | OutOfRange | InvalidSlice | UnexpectedNull

  /** A row, or a slice of one. */
  datatype Row = Row(cells: seq<Cell>, offset: nat, columns: nat) {
    predicate Valid() { offset + columns <= |cells| }

    function Slice(from: nat, n: nat): (r: Read<Row>)
      requires Valid()
      ensures r.Done? ==> r.value.Valid()
    {
      if n == 0 then InvalidSlice
      else if from + n > columns then OutOfRange
      else Done(Row(cells, offset + from, n))
    }

    function IsNull(column: nat): Read<bool>
      requires Valid()
    {
      if column >= columns then OutOfRange else Done(cells[offset + column].None?)
    }

    function GetText(column: nat): Read<string>
      requires Valid()
    {
      if column >= columns then OutOfRange
      else match cells[offset + column] case None => UnexpectedNull case Some(s) => Done(s)
    }

    /** Some column of the row or slice is not NULL. */
    predicate AnySet()
      requires Valid()
    {
      exists i :: 0 <= i < columns && IsNull(i) == Done(false)
    }
  }

  /** Whether `result_traits< T >::null()` exists. */
  predicate HasNull(shape: Shape) {
    shape.Optional? || (shape.Tuple? && |shape.items| == 1 && HasNull(shape.items[0]))
  }

  function NullOf(shape: Shape): Value
    requires HasNull(shape)
  {
    if shape.Optional? then Nothing else TupleOf([NullOf(shape.items[0])])
  }

  /** The types that are read from the text of one column. */
  predicate Direct(shape: Shape) {
    match shape
    case Leaf => true
    case Optional(t) => Direct(t)
    case Pair(_, _) => false
    case Tuple(ts) => |ts| == 1 && Direct(ts[0])
  }

  /** `result_traits< T >::from( const char* )` */
  function FromText(shape: Shape, s: string): Value
    requires Direct(shape)
  {
    match shape
    case Leaf => Text(s)
    case Optional(t) => Just(FromText(t, s))
    case Tuple(ts) => TupleOf([FromText(ts[0], s)])
  }

  function MapPair(a: Read<Value>, b: Read<Value>): Read<Value> {
    match (a, b)
    case (Done(v), Done(w)) => Done(PairOf(v, w))
    case (Done(_), _) => b
    case (_, _) => a
  }

  function MapCons(a: Read<Value>, b: Read<seq<Value>>): Read<seq<Value>> {
    match a
    case Done(v) => (match b case Done(vs) => Done([v] + vs) case _ => b)
    case OutOfRange => OutOfRange
    case InvalidSlice => InvalidSlice
    case UnexpectedNull => UnexpectedNull
  }

  /** `row::get< T >( column )`, for one-column types and for composite ones. */
  function Get(shape: Shape, row: Row, column: nat): Read<Value>
    requires Readable(shape) && row.Valid()
    decreases shape, 3
  {
    if Direct(shape) then
      if HasNull(shape) && row.IsNull(column) == OutOfRange then OutOfRange
      else if HasNull(shape) && row.IsNull(column) == Done(true) then Done(NullOf(shape))
      else
        match row.GetText(column)
        case Done(s) => Done(FromText(shape, s))
        case OutOfRange => OutOfRange
        case InvalidSlice => InvalidSlice
        case UnexpectedNull => UnexpectedNull
    else
      match row.Slice(column, Size(shape))
      case Done(slice) => FromRow(shape, slice)
      case OutOfRange => OutOfRange
      case InvalidSlice => InvalidSlice
      case UnexpectedNull => UnexpectedNull
  }

  /** `result_traits< T >::from( const Row& )` of composite types. */
  function FromRow(shape: Shape, row: Row): Read<Value>
    requires Readable(shape) && row.Valid() && !Direct(shape)
    decreases shape, 2
  {
    match shape
    case Optional(t) =>
      if !row.AnySet() then Done(Nothing)
      else (match FromRow(t, row) case Done(v) => Done(Just(v)) case other => other)
    case Pair(t, u) => MapPair(Get(t, row, 0), Get(u, row, Size(t)))
    case Tuple(ts) =>
      match GetItems(ts, row, Scan(SizesOf(ts)), 0)
      case Done(vs) => Done(TupleOf(vs))
      case OutOfRange => OutOfRange
      case InvalidSlice => InvalidSlice
      case UnexpectedNull => UnexpectedNull
  }

  /** `row.template get< Ts >( Ns )...` with the scanned sizes as offsets. */
  function GetItems(shapes: seq<Shape>, row: Row, offsets: seq<nat>, n: nat): Read<seq<Value>>
    requires AllReadable(shapes) && row.Valid() && |offsets| == n + |shapes|
    decreases shapes, 1
  {
    if shapes == [] then Done([])
    else MapCons(Get(shapes[0], row, offsets[n]), GetItems(shapes[1..], row, offsets, n + 1))
  }

  /** `row::as< T >()` */
  function As(shape: Shape, row: Row): Read<Value>
    requires Readable(shape) && row.Valid()
  {
    if Size(shape) != row.columns then OutOfRange else Get(shape, row, 0)
  }

  // ---------- reading what was written ----------

  /** The columns `xs` stand in `cells` from `p` on. */
  predicate Holds(cells: seq<Cell>, p: nat, xs: seq<Cell>) {
    p + |xs| <= |cells| && forall j :: 0 <= j < |xs| ==> cells[p + j] == xs[j]
  }

  lemma HoldsConcat(cells: seq<Cell>, p: nat, a: seq<Cell>, b: seq<Cell>)
    ensures Holds(cells, p, a + b) <==> Holds(cells, p, a) && Holds(cells, p + |a|, b)
  {
    if Holds(cells, p, a + b) {
      forall j | 0 <= j < |a| ensures cells[p + j] == a[j] {
        assert (a + b)[j] == a[j];
      }
      forall j | 0 <= j < |b| ensures cells[p + |a| + j] == b[j] {
        assert (a + b)[|a| + j] == b[j];
      }
    }
  }

  /** Every column of the value is NULL. */
  predicate AllNull(v: Value)
    decreases v, 1
  {
    match v
    case Text(_) => false
    case Nothing => true
    case Just(w) => AllNull(w)
    case PairOf(x, y) => AllNull(x) && AllNull(y)
    case TupleOf(vs) => EachAllNull(vs)
  }

  predicate EachAllNull(vs: seq<Value>)
    decreases vs, 0
  {
    vs == [] || (AllNull(vs[0]) && EachAllNull(vs[1..]))
  }

  predicate OnlyNulls(cells: seq<Cell>) { forall i :: 0 <= i < |cells| ==> cells[i] == None }

  lemma OnlyNullsConcat(a: seq<Cell>, b: seq<Cell>)
    ensures OnlyNulls(a + b) <==> OnlyNulls(a) && OnlyNulls(b)
  {
    if OnlyNulls(a + b) {
      forall i | 0 <= i < |a| ensures a[i] == None {
        assert (a + b)[i] == a[i];
      }
      forall i | 0 <= i < |b| ensures b[i] == None {
        assert (a + b)[|a| + i] == b[i];
      }
    }
  }

  lemma {:induction false} AllNullCells(v: Value, shape: Shape)
    requires HasShape(v, shape)
    ensures AllNull(v) <==> OnlyNulls(Cells(v, shape))
    decreases shape, 1
  {
    match shape
    case Leaf => assert Cells(v, shape)[0] == Some(v.s);
    case Optional(t) =>
      if v.Just? {
        AllNullCells(v.v, t);
      }
    case Pair(t, u) =>
      AllNullCells(v.first, t);
      AllNullCells(v.second, u);
      OnlyNullsConcat(Cells(v.first, t), Cells(v.second, u));
    case Tuple(ts) => EachAllNullCells(v.items, ts);
  }

  lemma {:induction false} EachAllNullCells(vs: seq<Value>, shapes: seq<Shape>)
    requires HaveShapes(vs, shapes)
    ensures EachAllNull(vs) <==> OnlyNulls(Concat(CellsOf(vs, shapes)))
    decreases shapes, 0
  {
    if shapes != [] {
      var columns := CellsOf(vs, shapes);
      assert columns[0] == Cells(vs[0], shapes[0]) && columns[1..] == CellsOf(vs[1..], shapes[1..]);
      AllNullCells(vs[0], shapes[0]);
      EachAllNullCells(vs[1..], shapes[1..]);
      OnlyNullsConcat(columns[0], Concat(columns[1..]));
    }
  }

  /** What a reader can tell of a value: an optional without any non-NULL column is a disengaged one. */
  function Collapse(v: Value): Value
    decreases v, 1
  {
    match v
    case Just(w) => if AllNull(w) then Nothing else Just(Collapse(w))
    case PairOf(x, y) => PairOf(Collapse(x), Collapse(y))
    case TupleOf(vs) => TupleOf(CollapseAll(vs))
    case _ => v
  }

  function CollapseAll(vs: seq<Value>): (result: seq<Value>)
    ensures |result| == |vs|
    decreases vs, 0
  {
    if vs == [] then [] else [Collapse(vs[0])] + CollapseAll(vs[1..])
  }

  /** One-column types: NULL reads as the null value, and a text as the value it was written from. */
  lemma {:induction false} DirectColumn(v: Value, shape: Shape)
    requires Direct(shape) && HasShape(v, shape)
    ensures Size(shape) == 1 && |Cells(v, shape)| == 1
    ensures Cells(v, shape)[0].None? ==> AllNull(v) && HasNull(shape) && NullOf(shape) == Collapse(v)
    ensures Cells(v, shape)[0].Some? ==> !AllNull(v) && FromText(shape, Cells(v, shape)[0].value) == Collapse(v)
  {
    match shape
    case Leaf =>
    case Optional(t) =>
      if v.Just? {
        DirectColumn(v.v, t);
      } else {
        OneColumn(shape);
      }
    case Tuple(ts) =>
      DirectColumn(v.items[0], ts[0]);
      assert SizesOf(ts) == [1] + SizesOf(ts[1..]) == [1];
      assert Sum([1]) == 1 + Sum([]);
      var columns := CellsOf(v.items, ts);
      assert columns[1..] == [] && Concat(columns) == columns[0] + [] == columns[0];
      assert v.items[1..] == [] && CollapseAll(v.items) == [Collapse(v.items[0])] + [];
  }

  lemma {:induction false} OneColumn(shape: Shape)
    requires Direct(shape)
    ensures Size(shape) == 1
  {
    match shape
    case Leaf =>
    case Optional(t) => OneColumn(t);
    case Tuple(ts) =>
      OneColumn(ts[0]);
      assert SizesOf(ts) == [1] + SizesOf(ts[1..]) == [1];
      assert Sum([1]) == 1 + Sum([]);
  }

  /** The types that are read directly are exactly those with one column. */
  lemma {:induction false} DirectIffOneColumn(shape: Shape)
    requires Readable(shape)
    ensures Size(shape) >= 1 && (Direct(shape) <==> Size(shape) == 1)
    decreases shape, 1
  {
    match shape
    case Leaf =>
    case Optional(t) => DirectIffOneColumn(t);
    case Pair(t, u) =>
      DirectIffOneColumn(t);
      DirectIffOneColumn(u);
    case Tuple(ts) =>
      DirectIffOneColumn(ts[0]);
      if |ts| == 1 {
        OneColumn(ts[0]);
        assert SizesOf(ts) == [Size(ts[0])] + SizesOf(ts[1..]) == [Size(ts[0])];
        assert Sum([Size(ts[0])]) == Size(ts[0]) + Sum([]);
      } else {
        assert AllReadable(ts[1..]) && ts[1] == ts[1..][0];
        DirectIffOneColumn(ts[1]);
        assert SizesOf(ts)[1..] == SizesOf(ts[1..]);
        assert SizesOf(ts[1..])[0] == Size(ts[1]);
      }
  }

  /** The row, or the slice of one, holds a value in its columns from `column` on. */
  ghost predicate Contains(row: Row, column: nat, v: Value, shape: Shape) {
    && HasShape(v, shape) && column + Size(shape) <= row.columns
    && Holds(row.cells, row.offset + column, Cells(v, shape))
  }

  lemma AnySetIffNotOnlyNulls(row: Row, cells: seq<Cell>)
    requires row.Valid() && Holds(row.cells, row.offset, cells) && row.columns == |cells|
    ensures row.AnySet() <==> !OnlyNulls(cells)
  {
    forall i | 0 <= i < |cells| ensures row.IsNull(i) == Done(cells[i].None?) {
      assert row.cells[row.offset + i] == cells[i];
    }
    if !OnlyNulls(cells) {
      var i :| 0 <= i < |cells| && cells[i] != None;
      assert row.IsNull(i) == Done(false);
    }
  }

  /** Optional composites: whether the slice has a column that is not NULL. */
  lemma {:induction false} AnySetIffNotAllNull(row: Row, v: Value, shape: Shape)
    requires row.Valid() && Contains(row, 0, v, shape) && row.columns == Size(shape)
    ensures row.AnySet() <==> !AllNull(v)
  {
    AllNullCells(v, shape);
    AnySetIffNotOnlyNulls(row, Cells(v, shape));
  }

  /** One column of a row that holds a value of a one-column type. */
  lemma {:induction false} GetDirect(row: Row, column: nat, v: Value, shape: Shape)
    requires Readable(shape) && row.Valid() && Direct(shape) && Contains(row, column, v, shape)
    ensures Get(shape, row, column) == Done(Collapse(v))
  {
    DirectColumn(v, shape);
    assert row.cells[row.offset + column + 0] == Cells(v, shape)[0];
  }

  /**
    Reading any part of a row or slice, at any depth of slicing, gives the value that was flattened
    into it, up to optionals without a non-NULL column, and throws nothing.
   */
  lemma {:induction false} ReadBack(row: Row, column: nat, v: Value, shape: Shape)
    requires Readable(shape) && row.Valid() && Contains(row, column, v, shape)
    ensures Get(shape, row, column) == Done(Collapse(v))
    decreases shape, 3
  {
    if Direct(shape) {
      GetDirect(row, column, v, shape);
    } else {
      DirectIffOneColumn(shape);
      var slice := Row(row.cells, row.offset + column, Size(shape));
      assert row.Slice(column, Size(shape)) == Done(slice);
      ReadSliceBack(slice, v, shape);
    }
  }

  lemma {:induction false} PairContains(row: Row, v: Value, t: Shape, u: Shape)
    requires row.Valid() && Contains(row, 0, v, Pair(t, u))
    ensures Contains(row, 0, v.first, t) && Contains(row, Size(t), v.second, u)
  {
    HoldsConcat(row.cells, row.offset, Cells(v.first, t), Cells(v.second, u));
  }

  lemma {:induction false} TupleContains(row: Row, v: Value, ts: seq<Shape>)
    requires row.Valid() && Contains(row, 0, v, Tuple(ts))
    ensures HaveShapes(v.items, ts) && 0 + Sum(SizesOf(ts)) <= row.columns
    ensures Holds(row.cells, row.offset + 0, Concat(CellsOf(v.items, ts)))
    ensures AreOffsets(Scan(SizesOf(ts)), 0, 0, ts)
  {
    OffsetsAreSums(ts);
  }

  lemma {:induction false} ReadSliceBack(row: Row, v: Value, shape: Shape)
    requires Readable(shape) && row.Valid() && !Direct(shape)
    requires Contains(row, 0, v, shape) && row.columns == Size(shape)
    ensures FromRow(shape, row) == Done(Collapse(v))
    decreases shape, 2
  {
    match shape
    case Optional(t) =>
      AnySetIffNotAllNull(row, v, shape);
      if v.Just? && row.AnySet() {
        ReadSliceBack(row, v.v, t);
      }
    case Pair(t, u) =>
      PairContains(row, v, t, u);
      ReadBack(row, 0, v.first, t);
      ReadBack(row, Size(t), v.second, u);
    case Tuple(ts) =>
      TupleContains(row, v, ts);
      ReadItemsBack(row, v.items, ts, Scan(SizesOf(ts)), 0, 0);
  }

  /** The scanned sizes are the offsets of the elements. */
  ghost predicate AreOffsets(offsets: seq<nat>, n: nat, base: nat, shapes: seq<Shape>) {
    |offsets| == n + |shapes|
    && forall i :: 0 <= i < |shapes| ==> offsets[n + i] == base + Sum(SizesOf(shapes)[..i])
  }

  lemma {:induction false} OffsetsAreSums(shapes: seq<Shape>)
    ensures AreOffsets(Scan(SizesOf(shapes)), 0, 0, shapes)
  {
    forall i | 0 <= i < |shapes| ensures Scan(SizesOf(shapes))[0 + i] == 0 + Sum(SizesOf(shapes)[..i]) {
      PartialSumIsPrefix(SizesOf(shapes), i);
    }
  }

  lemma OffsetsOfRest(offsets: seq<nat>, n: nat, base: nat, shapes: seq<Shape>)
    requires AreOffsets(offsets, n, base, shapes) && shapes != []
    ensures offsets[n] == base
    ensures AreOffsets(offsets, n + 1, base + Size(shapes[0]), shapes[1..])
  {
    var ns := SizesOf(shapes);
    assert offsets[n + 0] == base + Sum(ns[..0]) && ns[..0] == [];
    assert ns[1..] == SizesOf(shapes[1..]);
    forall i | 0 <= i < |shapes| - 1
      ensures offsets[n + 1 + i] == base + Size(shapes[0]) + Sum(SizesOf(shapes[1..])[..i])
    {
      assert offsets[n + (i + 1)] == base + Sum(ns[..i + 1]);
      assert ns[..i + 1][1..] == ns[1..][..i] && ns[..i + 1][0] == Size(shapes[0]);
    }
  }

  lemma {:induction false} ReadItemsBack(row: Row, vs: seq<Value>, shapes: seq<Shape>,
                                         offsets: seq<nat>, n: nat, base: nat)
    requires AllReadable(shapes) && row.Valid() && AreOffsets(offsets, n, base, shapes)
    requires HaveShapes(vs, shapes) && base + Sum(SizesOf(shapes)) <= row.columns
    requires Holds(row.cells, row.offset + base, Concat(CellsOf(vs, shapes)))
    ensures GetItems(shapes, row, offsets, n) == Done(CollapseAll(vs))
    decreases shapes, 1
  {
    if shapes != [] {
      var columns := CellsOf(vs, shapes);
      assert columns[0] == Cells(vs[0], shapes[0]) && columns[1..] == CellsOf(vs[1..], shapes[1..]);
      assert SizesOf(shapes)[1..] == SizesOf(shapes[1..]);
      OffsetsOfRest(offsets, n, base, shapes);
      HoldsConcat(row.cells, row.offset + base, columns[0], Concat(columns[1..]));
      ReadBack(row, base, vs[0], shapes[0]);
      ReadItemsBack(row, vs[1..], shapes[1..], offsets, n + 1, base + Size(shapes[0]));
    }
  }

  // ---------- writing what was read ----------

  /** What is read from one column has that column. */
  lemma {:induction false} TextColumn(shape: Shape, s: string)
    requires Direct(shape)
    ensures HasShape(FromText(shape, s), shape) && Cells(FromText(shape, s), shape) == [Some(s)]
  {
    match shape
    case Leaf =>
    case Optional(t) => TextColumn(t, s);
    case Tuple(ts) =>
      TextColumn(ts[0], s);
      SingleItem(FromText(ts[0], s), ts);
  }

  lemma {:induction false} NullColumn(shape: Shape)
    requires Direct(shape) && HasNull(shape)
    ensures HasShape(NullOf(shape), shape) && Cells(NullOf(shape), shape) == [None]
  {
    OneColumn(shape);
    if shape.Tuple? {
      NullColumn(shape.items[0]);
      SingleItem(NullOf(shape.items[0]), shape.items);
    }
  }

  lemma {:induction false} SingleItem(v: Value, ts: seq<Shape>)
    requires |ts| == 1 && HasShape(v, ts[0])
    ensures HasShape(TupleOf([v]), Tuple(ts)) && Cells(TupleOf([v]), Tuple(ts)) == Cells(v, ts[0])
  {
    assert [v][1..] == [] && ts[1..] == [];
    var columns := CellsOf([v], ts);
    assert columns == [Cells(v, ts[0])] + CellsOf([v][1..], ts[1..]) == [Cells(v, ts[0])];
    assert Concat(columns) == columns[0] + Concat(columns[1..]) == columns[0];
  }

  /**
    Reading a part of a row that is wide enough never runs out of columns, and when it gives a
    value, flattening that value gives back exactly the columns that were read.
   */
  lemma {:induction false} ReadIsFaithful(row: Row, column: nat, shape: Shape)
    requires Readable(shape) && row.Valid() && column + Size(shape) <= row.columns
    ensures Get(shape, row, column).Done? || Get(shape, row, column).UnexpectedNull?
    ensures Get(shape, row, column).Done? ==> Contains(row, column, Get(shape, row, column).value, shape)
    decreases shape, 3
  {
    DirectIffOneColumn(shape);
    if Direct(shape) {
      ReadColumnIsFaithful(row, column, shape);
    } else {
      var slice := Row(row.cells, row.offset + column, Size(shape));
      assert row.Slice(column, Size(shape)) == Done(slice);
      ReadSliceIsFaithful(slice, shape);
    }
  }

  lemma {:induction false} ReadColumnIsFaithful(row: Row, column: nat, shape: Shape)
    requires Readable(shape) && Direct(shape) && row.Valid() && column < row.columns && Size(shape) == 1
    ensures Get(shape, row, column).Done? || Get(shape, row, column).UnexpectedNull?
    ensures Get(shape, row, column).Done? ==> Contains(row, column, Get(shape, row, column).value, shape)
  {
    match row.cells[row.offset + column]
    case None =>
      if HasNull(shape) {
        NullColumn(shape);
      }
    case Some(s) => TextColumn(shape, s);
  }

  lemma {:induction false} ReadSliceIsFaithful(row: Row, shape: Shape)
    requires Readable(shape) && row.Valid() && !Direct(shape) && row.columns == Size(shape)
    ensures FromRow(shape, row).Done? || FromRow(shape, row).UnexpectedNull?
    ensures FromRow(shape, row).Done? ==> Contains(row, 0, FromRow(shape, row).value, shape)
    decreases shape, 2
  {
    match shape
    case Optional(t) =>
      if row.AnySet() {
        ReadSliceIsFaithful(row, t);
      } else {
        NothingIsFaithful(row, t);
      }
    case Pair(t, u) =>
      ReadIsFaithful(row, 0, t);
      ReadIsFaithful(row, Size(t), u);
      if FromRow(shape, row).Done? {
        var v := FromRow(shape, row).value;
        HoldsConcat(row.cells, row.offset, Cells(v.first, t), Cells(v.second, u));
      }
    case Tuple(ts) =>
      OffsetsAreSums(ts);
      ReadItemsIsFaithful(row, ts, Scan(SizesOf(ts)), 0, 0);
  }

  lemma {:induction false} NothingIsFaithful(row: Row, t: Shape)
    requires row.Valid() && row.columns == Size(t) && !row.AnySet()
    ensures Contains(row, 0, Nothing, Optional(t))
  {
    var cells := Cells(Nothing, Optional(t));
    forall j | 0 <= j < |cells| ensures row.cells[row.offset + 0 + j] == cells[j] {
      assert row.IsNull(j) == Done(true);
    }
  }

  lemma {:induction false} ReadItemsIsFaithful(row: Row, shapes: seq<Shape>, offsets: seq<nat>, n: nat, base: nat)
    requires AllReadable(shapes) && row.Valid() && AreOffsets(offsets, n, base, shapes)
    requires base + Sum(SizesOf(shapes)) <= row.columns
    ensures GetItems(shapes, row, offsets, n).Done? || GetItems(shapes, row, offsets, n).UnexpectedNull?
    ensures GetItems(shapes, row, offsets, n).Done? ==>
              && HaveShapes(GetItems(shapes, row, offsets, n).value, shapes)
              && Holds(row.cells, row.offset + base, Concat(CellsOf(GetItems(shapes, row, offsets, n).value, shapes)))
    decreases shapes, 1
  {
    if shapes != [] {
      assert SizesOf(shapes)[1..] == SizesOf(shapes[1..]);
      OffsetsOfRest(offsets, n, base, shapes);
      ReadIsFaithful(row, base, shapes[0]);
      ReadItemsIsFaithful(row, shapes[1..], offsets, n + 1, base + Size(shapes[0]));
      var first, rest := Get(shapes[0], row, offsets[n]), GetItems(shapes[1..], row, offsets, n + 1);
      assert GetItems(shapes, row, offsets, n) == MapCons(first, rest);
    }
  }

  // ---------- the main results ----------

  /** No engaged optional consists of NULLs only. */
  predicate Faithful(v: Value)
    decreases v, 1
  {
    match v
    case Just(w) => !AllNull(w) && Faithful(w)
    case PairOf(x, y) => Faithful(x) && Faithful(y)
    case TupleOf(vs) => AllFaithful(vs)
    case _ => true
  }

  predicate AllFaithful(vs: seq<Value>)
    decreases vs, 0
  {
    vs == [] || (Faithful(vs[0]) && AllFaithful(vs[1..]))
  }

  lemma {:induction false} CollapseIsIdentity(v: Value)
    ensures Collapse(v) == v <==> Faithful(v)
    decreases v, 1
  {
    match v
    case Just(w) => CollapseIsIdentity(w);
    case PairOf(x, y) =>
      CollapseIsIdentity(x);
      CollapseIsIdentity(y);
    case TupleOf(vs) => CollapseAllIsIdentity(vs);
    case _ =>
  }

  lemma {:induction false} CollapseAllIsIdentity(vs: seq<Value>)
    ensures CollapseAll(vs) == vs <==> AllFaithful(vs)
    decreases vs, 0
  {
    if vs != [] {
      CollapseIsIdentity(vs[0]);
      CollapseAllIsIdentity(vs[1..]);
      assert [vs[0]] + vs[1..] == vs;
      assert CollapseAll(vs)[1..] == CollapseAll(vs[1..]) && CollapseAll(vs)[0] == Collapse(vs[0]);
    }
  }

  /** The columns that the parameter side sends for a value. */
  function Sent(v: Value, shape: Shape): (cells: seq<Cell>)
    requires HasShape(v, shape)
    ensures |cells| == Size(shape)
  {
    seq(Size(shape), flat requires 0 <= flat < Size(shape) => Column(v, shape, flat))
  }

  /**
    The round trip, for every tree of pairs, tuples and optionals: a row made of the columns that are
    sent for a value is read as that value, up to optionals without a non-NULL column. The very same
    value comes back exactly when it has no such optional.
   */
  lemma {:induction false} RoundTrip(v: Value, shape: Shape)
    requires Readable(shape) && HasShape(v, shape)
    ensures As(shape, Row(Sent(v, shape), 0, Size(shape))) == Done(Collapse(v))
    ensures As(shape, Row(Sent(v, shape), 0, Size(shape))) == Done(v) <==> Faithful(v)
  {
    forall flat | 0 <= flat < Size(shape) ensures Sent(v, shape)[flat] == Cells(v, shape)[flat] {
      ColumnIsCell(v, shape, flat);
    }
    ReadBack(Row(Sent(v, shape), 0, Size(shape)), 0, v, shape);
    CollapseIsIdentity(v);
  }

  /** A part of a row can be read exactly when it is what some value is flattened to. */
  lemma {:induction false} ReadableIffFlattened(row: Row, column: nat, shape: Shape)
    requires Readable(shape) && row.Valid() && column + Size(shape) <= row.columns
    ensures Get(shape, row, column).Done? <==> exists v :: Contains(row, column, v, shape)
  {
    ReadIsFaithful(row, column, shape);
    if v :| Contains(row, column, v, shape) {
      ReadBack(row, column, v, shape);
    }
  }

  // ---------- rows and slices of other widths ----------

  /** The columns that a row or slice shows. */
  function Shown(row: Row): seq<Cell>
    requires row.Valid()
  {
    row.cells[row.offset..row.offset + row.columns]
  }

  /** A slice shows exactly the columns that were asked for, all of them columns of the row. */
  lemma SliceShows(row: Row, from: nat, n: nat)
    requires row.Valid()
    ensures n > 0 ==> (row.Slice(from, n).OutOfRange? <==> from + n > |Shown(row)|)
    ensures row.Slice(from, n).InvalidSlice? <==> n == 0
    ensures row.Slice(from, n).Done? <==> 0 < n && from + n <= |Shown(row)|
    ensures row.Slice(from, n).Done? ==> Shown(row.Slice(from, n).value) == Shown(row)[from..from + n]
  {
  }

  /** A column is read if and only if the row or slice shows it. */
  lemma ColumnShows(row: Row, column: nat)
    requires row.Valid()
    ensures row.IsNull(column).OutOfRange? <==> column >= |Shown(row)|
    ensures row.GetText(column).OutOfRange? <==> column >= |Shown(row)|
    ensures column < |Shown(row)| ==> row.IsNull(column) == Done(Shown(row)[column].None?)
    ensures column < |Shown(row)| ==>
              row.GetText(column) == match Shown(row)[column] case None => UnexpectedNull case Some(s) => Done(s)
  {
  }

  /**
    `get` for every row and every position: out of range exactly when the columns of the type do not
    all belong to the row or slice; otherwise a value, or an unexpected NULL.
   */
  lemma {:induction false} GetOutcome(shape: Shape, row: Row, column: nat)
    requires Readable(shape) && row.Valid()
    ensures Get(shape, row, column).OutOfRange? <==> column + Size(shape) > row.columns
    ensures !Get(shape, row, column).InvalidSlice?
    ensures Get(shape, row, column).Done? <==>
              column + Size(shape) <= row.columns && exists v :: Contains(row, column, v, shape)
  {
    DirectIffOneColumn(shape);
    if column + Size(shape) <= row.columns {
      ReadIsFaithful(row, column, shape);
      ReadableIffFlattened(row, column, shape);
    } else {
      SliceShows(row, column, Size(shape));
    }
  }

  /** The row is what the value is flattened to, and nothing else. */
  predicate Flattens(row: Row, v: Value, shape: Shape)
    requires row.Valid()
  {
    HasShape(v, shape) && Shown(row) == Cells(v, shape)
  }

  lemma {:induction false} FlattensIff(row: Row, v: Value, shape: Shape)
    requires row.Valid()
    ensures Flattens(row, v, shape) <==> row.columns == Size(shape) && Contains(row, 0, v, shape)
  {
    if row.columns == Size(shape) && Contains(row, 0, v, shape) {
      forall j | 0 <= j < row.columns ensures Shown(row)[j] == Cells(v, shape)[j] {
        assert row.cells[row.offset + 0 + j] == Cells(v, shape)[j];
      }
    }
    if Flattens(row, v, shape) {
      forall j | 0 <= j < row.columns ensures row.cells[row.offset + 0 + j] == Cells(v, shape)[j] {
        assert Shown(row)[j] == Cells(v, shape)[j];
      }
    }
  }

  /**
    `as` for every row: it gives a value if and only if the whole row is what some value is flattened
    to, and then one that is flattened to this row; it is out of range exactly when the widths differ.
   */
  lemma {:induction false} AsOutcome(shape: Shape, row: Row)
    requires Readable(shape) && row.Valid()
    ensures As(shape, row).Done? <==> exists v :: Flattens(row, v, shape)
    ensures As(shape, row).Done? ==> Flattens(row, As(shape, row).value, shape)
    ensures As(shape, row).OutOfRange? <==> row.columns != Size(shape)
    ensures !As(shape, row).InvalidSlice?
  {
    forall v ensures Flattens(row, v, shape) <==> row.columns == Size(shape) && Contains(row, 0, v, shape) {
      FlattensIff(row, v, shape);
    }
    GetOutcome(shape, row, 0);
    if row.columns == Size(shape) {
      ReadIsFaithful(row, 0, shape);
    }
  }

  /** The columns of a part of a row, one by one, when the part holds a disengaged optional. */
  lemma {:induction false} NothingIsAllNull(row: Row, column: nat, shape: Shape, i: nat)
    requires row.Valid() && column + Size(shape) <= row.columns && column <= i < column + Size(shape)
    requires Contains(row, column, Nothing, Optional(shape))
    ensures row.IsNull(i) == Done(true)
  {
    var cells := Cells(Nothing, Optional(shape));
    assert row.cells[row.offset + column + (i - column)] == cells[i - column];
  }

  lemma {:induction false} AllNullIsNothing(row: Row, column: nat, shape: Shape)
    requires Readable(shape) && row.Valid() && column + Size(shape) <= row.columns
    requires forall i :: column <= i < column + Size(shape) ==> row.IsNull(i) == Done(true)
    ensures Get(Optional(shape), row, column) == Done(Nothing)
  {
    var cells := Cells(Nothing, Optional(shape));
    forall j | 0 <= j < |cells| ensures row.cells[row.offset + column + j] == cells[j] {
      assert row.IsNull(column + j) == Done(true);
    }
    ReadBack(row, column, Nothing, Optional(shape));
  }

  /** An optional reads as disengaged exactly when all its columns are NULL. */
  lemma {:induction false} OptionalIsNullIff(row: Row, column: nat, shape: Shape)
    requires Readable(shape) && row.Valid() && column + Size(shape) <= row.columns
    ensures Get(Optional(shape), row, column) == Done(Nothing)
       <==> forall i :: column <= i < column + Size(shape) ==> row.IsNull(i) == Done(true)
  {
    if Get(Optional(shape), row, column) == Done(Nothing) {
      ReadIsFaithful(row, column, Optional(shape));
      forall i | column <= i < column + Size(shape) ensures row.IsNull(i) == Done(true) {
        NothingIsAllNull(row, column, shape, i);
      }
    } else if forall i :: column <= i < column + Size(shape) ==> row.IsNull(i) == Done(true) {
      AllNullIsNothing(row, column, shape);
    }
  }

  /** The loop of `result_traits< std::optional< T > >::from` over the columns. */
  method AnyColumnSet(row: Row) returns (found: bool)
    requires row.Valid()
    ensures found == row.AnySet()
  {
    var column := 0;
    while column < row.columns
      invariant 0 <= column <= row.columns
      invariant forall i :: 0 <= i < column ==> row.IsNull(i) == Done(true)
    {
      if row.IsNull(column) == Done(false) {
        return true;
      }
      column := column + 1;
    }
    return false;
  }
}
