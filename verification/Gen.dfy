/**
  `internal::gen` and `internal::exclusive_scan`: from the number of a flat column to the argument
  it belongs to and the column inside that argument, by fold expressions over the sizes.
 */
module Gen {

  function Sum(ns: seq<nat>): nat {
    if ns == [] then 0 else ns[0] + Sum(ns[1..])
  }

  /** `partial_sum< I >` */
  function PartialSum(ns: seq<nat>, i: nat): nat {
    Sum(seq(|ns|, j requires 0 <= j < |ns| => if j < i then ns[j] else 0))
  }

  /** `exclusive_scan_t` */
  function Scan(ns: seq<nat>): (offsets: seq<nat>)
    ensures |offsets| == |ns|
  {
    seq(|ns|, i requires 0 <= i < |ns| => PartialSum(ns, i))
  }

  /** `outer< I >`; without any argument this would be -1. */
  function Outer(ns: seq<nat>, flat: nat): int {
    Sum(seq(|ns|, j requires 0 <= j < |ns| => if Scan(ns)[j] <= flat then 1 else 0)) - 1
  }

  /** `select< J >` */
  function Select(ns: seq<nat>, o: int): nat {
    Sum(seq(|ns|, j requires 0 <= j < |ns| => if j == o then Scan(ns)[j] else 0))
  }

  /** `inner< I >` */
  function Inner(ns: seq<nat>, flat: nat): int {
    flat - Select(ns, Outer(ns, flat))
  }

  // ---------- the folds in terms of prefixes ----------

  lemma {:induction false} SumSplit(ns: seq<nat>, i: nat)
    requires i <= |ns|
    ensures Sum(ns) == Sum(ns[..i]) + Sum(ns[i..])
  {
    if i == 0 {
      assert ns[0..] == ns;
    } else {
      SumSplit(ns[1..], i - 1);
      assert ns[..i][1..] == ns[1..][..i - 1] && ns[1..][i - 1..] == ns[i..];
    }
  }

  lemma {:induction false} SumOfZeros(ns: seq<nat>)
    requires forall j :: 0 <= j < |ns| ==> ns[j] == 0
    ensures Sum(ns) == 0
  {
    if ns != [] {
      SumOfZeros(ns[1..]);
    }
  }

  lemma {:induction false} SumOfOnes(ns: seq<nat>)
    requires forall j :: 0 <= j < |ns| ==> ns[j] == 1
    ensures Sum(ns) == |ns|
  {
    if ns != [] {
      SumOfOnes(ns[1..]);
    }
  }

  lemma PartialSumIsPrefix(ns: seq<nat>, i: nat)
    requires i <= |ns|
    ensures PartialSum(ns, i) == Sum(ns[..i])
  {
    var kept := seq(|ns|, j requires 0 <= j < |ns| => if j < i then ns[j] else 0);
    SumSplit(kept, i);
    assert kept[..i] == ns[..i];
    SumOfZeros(kept[i..]);
  }

  lemma PrefixGrows(ns: seq<nat>, i: nat, j: nat)
    requires i < j <= |ns|
    ensures Sum(ns[..i]) + ns[i] <= Sum(ns[..j])
  {
    SumSplit(ns[..j], i);
    assert ns[..j][..i] == ns[..i] && ns[..j][i..][0] == ns[i];
  }

  /** Column `flat` lies in argument `o`. */
  predicate Within(ns: seq<nat>, flat: nat, o: nat) {
    o < |ns| && Sum(ns[..o]) <= flat < Sum(ns[..o]) + ns[o]
  }

  lemma {:induction false} SomeArgument(ns: seq<nat>, flat: nat) returns (o: nat)
    requires flat < Sum(ns)
    ensures Within(ns, flat, o)
    decreases |ns|
  {
    var last := |ns| - 1;
    SumSplit(ns, last);
    assert ns[last..] == [ns[last]] && Sum([ns[last]]) == ns[last] + Sum([]);
    if flat < Sum(ns[..last]) {
      o := SomeArgument(ns[..last], flat);
      assert ns[..last][..o] == ns[..o];
    } else {
      o := last;
    }
  }

  /** The folds compute the argument and the column inside it. */
  lemma FoldsLocate(ns: seq<nat>, flat: nat, o: nat)
    requires Within(ns, flat, o)
    ensures Outer(ns, flat) == o && Inner(ns, flat) == flat - Sum(ns[..o])
  {
    var marks: seq<nat> := seq(|ns|, j requires 0 <= j < |ns| => if Scan(ns)[j] <= flat then 1 else 0);
    forall j | 0 <= j < |ns| ensures marks[j] == if j <= o then 1 else 0 {
      PartialSumIsPrefix(ns, j);
      if j < o {
        PrefixGrows(ns, j, o);
      } else if o < j {
        PrefixGrows(ns, o, j);
      }
      assert Scan(ns)[j] == Sum(ns[..j]);
    }
    SumSplit(marks, o + 1);
    SumOfOnes(marks[..o + 1]);
    SumOfZeros(marks[o + 1..]);
    SelectsOffset(ns, o);
  }

  lemma SelectsOffset(ns: seq<nat>, o: nat)
    requires o < |ns|
    ensures Select(ns, o) == Sum(ns[..o])
  {
    var picked: seq<nat> := seq(|ns|, j requires 0 <= j < |ns| => if j == o then Scan(ns)[j] else 0);
    SumSplit(picked, o);
    SumOfZeros(picked[..o]);
    assert picked[o..][0] == Scan(ns)[o];
    SumOfZeros(picked[o..][1..]);
    PartialSumIsPrefix(ns, o);
  }

  // ---------- flat indexing is an order-preserving bijection ----------

  /** The flat number of a column of an argument. */
  function Flat(ns: seq<nat>, o: nat, i: nat): nat
    requires o < |ns|
  {
    Sum(ns[..o]) + i
  }

  /** For sizes with or without zeros: every flat column has one argument, and every column one number. */
  lemma {:induction false} FlatIndexIsBijective(ns: seq<nat>)
    ensures forall flat: nat :: flat < Sum(ns) ==>
              && 0 <= Outer(ns, flat) < |ns| && 0 <= Inner(ns, flat) < ns[Outer(ns, flat)]
              && Flat(ns, Outer(ns, flat), Inner(ns, flat)) == flat
    ensures forall o: nat, i: nat :: o < |ns| && i < ns[o] ==>
              && Flat(ns, o, i) < Sum(ns)
              && Outer(ns, Flat(ns, o, i)) == o && Inner(ns, Flat(ns, o, i)) == i
  {
    forall flat: nat | flat < Sum(ns)
      ensures 0 <= Outer(ns, flat) < |ns| && 0 <= Inner(ns, flat) < ns[Outer(ns, flat)]
              && Flat(ns, Outer(ns, flat), Inner(ns, flat)) == flat
    {
      var o := SomeArgument(ns, flat);
      FoldsLocate(ns, flat, o);
    }
    forall o: nat, i: nat | o < |ns| && i < ns[o]
      ensures Flat(ns, o, i) < Sum(ns) && Outer(ns, Flat(ns, o, i)) == o && Inner(ns, Flat(ns, o, i)) == i
    {
      PrefixGrows(ns, o, |ns|);
      assert ns[..|ns|] == ns;
      FoldsLocate(ns, Flat(ns, o, i), o);
    }
  }

  /** Larger flat numbers are lexicographically larger pairs. */
  lemma {:induction false} FlatIndexKeepsOrder(ns: seq<nat>, a: nat, b: nat)
    requires a < b < Sum(ns)
    ensures Outer(ns, a) < Outer(ns, b) || (Outer(ns, a) == Outer(ns, b) && Inner(ns, a) < Inner(ns, b))
  {
    var o := SomeArgument(ns, a);
    var p := SomeArgument(ns, b);
    FoldsLocate(ns, a, o);
    FoldsLocate(ns, b, p);
    if p < o {
      PrefixGrows(ns, p, o);
    }
  }

  // ---------- concatenations, read through the folds ----------

  function Concat<T>(xs: seq<seq<T>>): seq<T> {
    if xs == [] then [] else xs[0] + Concat(xs[1..])
  }

  function Sizes<T>(xs: seq<seq<T>>): (ns: seq<nat>)
    ensures |ns| == |xs|
  {
    seq(|xs|, i requires 0 <= i < |xs| => |xs[i]|)
  }

  lemma {:induction false} ConcatLength<T>(xs: seq<seq<T>>)
    ensures |Concat(xs)| == Sum(Sizes(xs))
  {
    if xs != [] {
      ConcatLength(xs[1..]);
      assert Sizes(xs)[1..] == Sizes(xs[1..]);
    }
  }

  lemma {:induction false} ConcatWithin<T>(xs: seq<seq<T>>, flat: nat, o: nat)
    requires Within(Sizes(xs), flat, o)
    ensures flat < |Concat(xs)| && Concat(xs)[flat] == xs[o][flat - Sum(Sizes(xs)[..o])]
    decreases |xs|
  {
    var ns := Sizes(xs);
    assert ns[1..] == Sizes(xs[1..]);
    if o > 0 {
      assert ns[..o][1..] == ns[1..][..o - 1];
      ConcatWithin(xs[1..], flat - |xs[0]|, o - 1);
    } else {
      assert ns[..0] == [];
    }
  }

  /** Column `flat` of a concatenation is what the folds select. */
  lemma {:induction false} ConcatAt<T>(xs: seq<seq<T>>, flat: nat)
    requires flat < |Concat(xs)|
    ensures 0 <= Outer(Sizes(xs), flat) < |xs|
    ensures var o := Outer(Sizes(xs), flat);
            0 <= Inner(Sizes(xs), flat) < |xs[o]| && Concat(xs)[flat] == xs[o][Inner(Sizes(xs), flat)]
  {
    ConcatLength(xs);
    var o := SomeArgument(Sizes(xs), flat);
    FoldsLocate(Sizes(xs), flat, o);
    ConcatWithin(xs, flat, o);
  }
}
