/** Columns by name, in a row or in a slice of one. */
module RowNames {
  import opened Basics

  /** The first column with a name, if there is one; this is what `PQfnumber` finds. */
  predicate IsFirst(names: seq<string>, wanted: string, n: Option<nat>) {
    match n
    case Some(k) => k < |names| && names[k] == wanted && forall j :: 0 <= j < k ==> names[j] != wanted
    case None => forall j :: 0 <= j < |names| ==> names[j] != wanted
  }

  /** Only one answer is the first column. */
  lemma FirstIsUnique(names: seq<string>, wanted: string, m: Option<nat>, n: Option<nat>)
    requires IsFirst(names, wanted, m) && IsFirst(names, wanted, n)
    ensures m == n
  {
    if m.Some? && n.Some? {
      assert !(m.value < n.value) && !(n.value < m.value);
    }
  }

  /**
    `row::index`: `found` is what the lookup in the whole result gives. When that column is before the
    slice, the slice is searched for its name; when it is after the slice, or nowhere, `out_of_range`
    is thrown. The answer is the first column of that name within the slice.
   */
  method Index(names: seq<string>, offset: nat, columns: nat, found: Option<nat>, ghost wanted: string)
    returns (r: Option<nat>)
    requires offset + columns <= |names| && IsFirst(names, wanted, found)
    ensures IsFirst(names[offset..offset + columns], wanted, r)
  {
    ghost var mine := names[offset..offset + columns];
    assert forall j :: 0 <= j < columns ==> mine[j] == names[offset + j];
    if found.None? {
      return None;
    }
    var n := found.value;
    if n >= offset {
      if n - offset < columns {
        return Some(n - offset);
      }
    } else {
      var adapted := names[n];
      for pos := 0 to columns
        invariant forall j :: 0 <= j < pos ==> mine[j] != adapted
      {
        if names[offset + pos] == adapted {
          return Some(pos);
        }
      }
    }
    return None;
  }
}
