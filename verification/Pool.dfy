/** `internal::pool` as one caller sees it, without other threads. */
module Pool {
  import opened Basics
  import P = PoolProtocol
  import PoolPlaces

  type Item = P.Item

  /** Where the newest valid item stands, or -1. */
  function Newest(items: seq<Item>, valid: set<Item>): (k: int)
    ensures -1 <= k < |items|
    ensures k >= 0 ==> items[k] in valid
    ensures forall j :: k < j < |items| ==> items[j] !in valid
  {
    if items == [] then -1
    else if items[|items| - 1] in valid then |items| - 1 else Newest(items[..|items| - 1], valid)
  }

  function Owned(deleter: map<Item, bool>): set<Item> {
    set i | i in deleter && deleter[i]
  }

  /** The items before position `n` are left of `list`; those from `n` on were invalid, and are destroyed. */
  predicate Dropped(list: seq<Item>, n: nat, valid: set<Item>, items: seq<Item>,
      before: map<Item, bool>, after: map<Item, bool>) {
    && n <= |list| && items == list[..n]
    && (forall j :: n <= j < |list| ==> list[j] !in valid)
    && after == P.Without(before, P.Elements(list[n..]))
  }

  lemma DropOne(list: seq<Item>, n: nat, valid: set<Item>, items: seq<Item>, rest: seq<Item>,
      before: map<Item, bool>, after: map<Item, bool>)
    requires Dropped(list, n + 1, valid, items, before, after) && list[n] !in valid && rest == items[..n]
    ensures Dropped(list, n, valid, rest, before, P.Without(after, {list[n]}))
  {
    assert list[n..] == [list[n]] + list[n + 1..];
    assert P.Without(after, {list[n]}) == P.Without(before, P.Elements(list[n..]));
  }

  /**
    The result of `get`: the newest valid item, or else the one that is made. The newer items are
    destroyed, the older ones are still in the list, and the item that is handed out names the pool.
   */
  predicate Got(list: seq<Item>, valid: set<Item>, made: Option<Item>, before: map<Item, bool>,
      items: seq<Item>, r: Option<Item>, after: map<Item, bool>) {
    var k := Newest(list, valid);
    && items == list[..if k < 0 then 0 else k]
    && r == (if k < 0 then made else Some(list[k]))
    && after == (var rest := P.Without(before, P.Elements(list[k + 1..]));
                 if r.Some? then rest[r.value := true] else rest)
  }

  lemma FoundNewest(list: seq<Item>, n: nat, valid: set<Item>, made: Option<Item>, before: map<Item, bool>,
      items: seq<Item>, after: map<Item, bool>)
    requires 0 < n <= |list| && Dropped(list, n, valid, list[..n], before, after) && list[n - 1] in valid
    requires items == list[..n - 1]
    ensures Got(list, valid, made, before, items, Some(list[n - 1]), after[list[n - 1] := true])
  {
    assert Newest(list, valid) == n - 1;
  }

  lemma FoundNone(list: seq<Item>, valid: set<Item>, made: Option<Item>, before: map<Item, bool>,
      after: map<Item, bool>)
    requires Dropped(list, 0, valid, [], before, after)
    ensures Got(list, valid, made, before, [], made, if made.Some? then after[made.value := true] else after)
  {
    assert Newest(list, valid) == -1;
  }

  /** What the deleter does: a valid item goes back into the pool that it names, any other is destroyed. */
  predicate Released(i: Item, valid: bool, list: seq<Item>, before: map<Item, bool>,
      items: seq<Item>, after: map<Item, bool>, change: int)
    requires i in before
  {
    && change == (if before[i] then -1 else 0)
    && items == (if before[i] && valid then list + [i] else list)
    && after == if before[i] && valid then before[i := false] else P.Without(before, {i})
  }

  /** What `attach` and `detach` do: the item names the pool or does not, and the counter follows. */
  predicate Renamed(i: Item, mine: bool, before: map<Item, bool>, after: map<Item, bool>, change: int)
    requires i in before
  {
    && after == before[i := mine]
    && change == (if mine then 1 else 0) - (if before[i] then 1 else 0)
  }

  /** What `erase_invalid` does: the valid items stay in their order, the others are destroyed. */
  predicate Erased(valid: set<Item>, list: seq<Item>, before: map<Item, bool>,
      items: seq<Item>, after: map<Item, bool>) {
    items == P.Kept(list, valid) && after == P.Without(before, P.Elements(list) - valid)
  }

  lemma UnownedGoes(deleter: map<Item, bool>, i: Item)
    requires i in deleter ==> !deleter[i]
    ensures Owned(P.Without(deleter, {i})) == Owned(deleter)
  {
  }

  lemma OwnerComes(deleter: map<Item, bool>, i: Item)
    requires i in deleter ==> !deleter[i]
    ensures |Owned(deleter[i := true])| == |Owned(deleter)| + 1
  {
    assert Owned(deleter[i := true]) == Owned(deleter) + {i};
  }

  lemma OwnerGoes(deleter: map<Item, bool>, i: Item)
    requires i in deleter && deleter[i]
    ensures |Owned(deleter[i := false])| == |Owned(deleter)| - 1
    ensures |Owned(deleter)| >= 1
  {
    assert Owned(deleter) == Owned(deleter[i := false]) + {i};
  }

  lemma {:induction false} KeptOfConcat(a: seq<Item>, b: seq<Item>, valid: set<Item>)
    ensures P.Kept(a + b, valid) == P.Kept(a, valid) + P.Kept(b, valid)
  {
    if a == [] {
      assert a + b == b;
    } else {
      KeptOfConcat(a[1..], b, valid);
      assert (a + b)[1..] == a[1..] + b && (a + b)[0] == a[0];
    }
  }

  lemma {:induction false} KeptOfNext(list: seq<Item>, n: nat, valid: set<Item>)
    requires n < |list|
    ensures P.Kept(list[..n + 1], valid) == P.Kept(list[..n], valid) + (if list[n] in valid then [list[n]] else [])
  {
    assert list[..n + 1] == list[..n] + [list[n]];
    KeptOfConcat(list[..n], [list[n]], valid);
    assert P.Kept([list[n]], valid) == if list[n] in valid then [list[n]] + P.Kept([], valid) else P.Kept([], valid);
  }

  /** The valid items stay in their order: in front of each there are those that were in front of it. */
  lemma {:induction false} KeptInOrder(list: seq<Item>, valid: set<Item>, i: nat)
    requires i < |list|
    ensures var before, kept := P.Kept(list[..i], valid), P.Kept(list, valid);
            && before <= kept
            && |P.Kept(list[..i + 1], valid)| == |before| + (if list[i] in valid then 1 else 0)
            && (list[i] in valid ==> |before| < |kept| && kept[|before|] == list[i])
  {
    KeptOfNext(list, i, valid);
    KeptOfConcat(list[..i], list[i..], valid);
    KeptOfConcat(list[..i + 1], list[i + 1..], valid);
    assert list == list[..i] + list[i..] && list == list[..i + 1] + list[i + 1..];
  }

  /** The list while `erase_invalid` looks at position `n`. */
  predicate Sifted(list: seq<Item>, n: nat, valid: set<Item>, items: seq<Item>, it: nat, doomed: seq<Item>) {
    && n <= |list| && it == |P.Kept(list[..n], valid)|
    && items == P.Kept(list[..n], valid) + list[n..]
    && doomed == P.Kept(list[..n], P.Elements(list) - valid)
  }

  lemma Sift(list: seq<Item>, n: nat, valid: set<Item>, items: seq<Item>, it: nat, doomed: seq<Item>)
    requires Sifted(list, n, valid, items, it, doomed) && it < |items|
    ensures n < |list| && items[it] == list[n]
    ensures list[n] in valid ==> Sifted(list, n + 1, valid, items, it + 1, doomed)
    ensures list[n] !in valid ==> Sifted(list, n + 1, valid, items[..it] + items[it + 1..], it, doomed + [list[n]])
  {
    var kept := P.Kept(list[..n], valid);
    assert list[n..] == [list[n]] + list[n + 1..];
    KeptOfNext(list, n, valid);
    KeptOfNext(list, n, P.Elements(list) - valid);
    assert items[..it] == kept && items[it + 1..] == list[n + 1..];
    assert list[n] in valid ==> items == (kept + [list[n]]) + list[n + 1..];
  }

  lemma {:induction false} SiftEnds(list: seq<Item>, n: nat, valid: set<Item>, items: seq<Item>, it: nat,
                                    doomed: seq<Item>)
    requires Sifted(list, n, valid, items, it, doomed) && it >= |items|
    ensures items == P.Kept(list, valid) && doomed == P.Kept(list, P.Elements(list) - valid)
  {
    assert list[..n] == list && list[n..] == [];
  }

  class Pool {
    var items: seq<Item>
    var attached: int

    /** How often the `shared_ptr` of a new item could not be allocates. */
    ghost var failures: nat

    /** The items that are not destroyed, and whether their deleter names this pool. */
    var deleter: map<Item, bool>

    ghost predicate Valid()
      reads this
    {
      && PoolPlaces.Distinct(items)
      && (forall i :: i in items ==> i in deleter && !deleter[i])
      && attached == |Owned(deleter)| - failures
    }

    constructor ()
      ensures Valid() && items == [] && attached == 0 && deleter == map[] && failures == 0
    {
      items := [];
      attached, failures := 0, 0;
      deleter := map[];
    }

    /** `push`: an item that is not valid is destroyed. */
    method Push(i: Item, valid: bool)
      requires Valid() && i in deleter && i !in items && !deleter[i]
      modifies this`items, this`deleter
      ensures Valid()
      ensures items == if valid then old(items) + [i] else old(items)
      ensures deleter == if valid then old(deleter) else P.Without(old(deleter), {i})
    {
      if valid {
        items := items + [i];
      } else {
        Destroy(i);
      }
    }

    method Pull() returns (r: Option<Item>)
      requires Valid()
      modifies this`items
      ensures Valid()
      ensures old(items) == [] ==> r == None && items == []
      ensures old(items) != [] ==>
                var last := |old(items)| - 1;
                r == Some(old(items)[last]) && items == old(items)[..last] && r.value !in items
    {
      if items == [] {
        return None;
      }
      var last := items[|items| - 1];
      items := items[..|items| - 1];
      return Some(last);
    }

    /** An item that is not in the list gets a deleter with this pool. */
    method Adopt(i: Item)
      requires Valid() && i !in items && (i in deleter ==> !deleter[i])
      modifies this`attached, this`deleter
      ensures Valid() && attached == old(attached) + 1 && deleter == old(deleter)[i := true]
    {
      OwnerComes(deleter, i);
      deleter := deleter[i := true];
      attached := attached + 1;
    }

    /**
      `create`: nothing happens when `v_create` throws. When the `shared_ptr` cannot be allocates, its
      deleter runs, and lowers the counter that has not been raised yet.
     */
    method Create(made: Option<Item>, allocates: bool, valid: bool) returns (ok: bool)
      requires Valid() && (made.Some? ==> made.value !in deleter)
      modifies this
      ensures Valid() && ok == (made.Some? && allocates)
      ensures made.None? ==> items == old(items) && attached == old(attached) && deleter == old(deleter)
      ensures ok ==> items == old(items) && attached == old(attached) + 1
                     && deleter == old(deleter)[made.value := true]
      ensures made.Some? && !ok ==> Released(made.value, valid, old(items), old(deleter)[made.value := true],
                                             items, deleter, attached - old(attached))
      ensures failures == old(failures) + if made.Some? && !ok then 1 else 0
    {
      if made.None? {
        return false;
      }
      if allocates {
        Adopt(made.value);
        return true;
      }
      OwnerComes(deleter, made.value);
      deleter := deleter[made.value := true];
      failures := failures + 1;
      Release(made.value, valid);
      return false;
    }

    method Destroy(i: Item)
      requires Valid() && i !in items && (i in deleter ==> !deleter[i])
      modifies this`deleter
      ensures Valid() && deleter == P.Without(old(deleter), {i})
    {
      UnownedGoes(deleter, i);
      deleter := P.Without(deleter, {i});
    }

    /**
      `get`: the newest valid item, or what `v_create` makes. The invalid items that were returned after
      it are destroyed, the older ones stay as they are.
     */
    method Get(valid: set<Item>, made: Option<Item>) returns (r: Option<Item>)
      requires Valid() && (made.Some? ==> made.value !in deleter)
      modifies this
      ensures Valid()
      ensures Got(old(items), valid, made, old(deleter), items, r, deleter)
      ensures attached == old(attached) + (if r.Some? then 1 else 0) && failures == old(failures)
    {
      ghost var list := items;
      ghost var before := deleter;
      assert P.Without(before, P.Elements(list[|list|..])) == before;
      while true
        invariant Valid() && attached == old(attached) && failures == old(failures)
        invariant Dropped(list, |items|, valid, items, before, deleter)
        decreases |items|
      {
        var sp := Pull();
        if sp.None? {
          break;
        }
        if sp.value in valid {
          FoundNewest(list, |items| + 1, valid, made, before, items, deleter);
          Adopt(sp.value);
          return sp;
        }
        DropOne(list, |items|, valid, list[..|items| + 1], items, before, deleter);
        Destroy(sp.value);
      }
      FoundNone(list, valid, made, before, deleter);
      var _ := Create(made, true, true);
      return made;
    }

    /** `deleter::operator()`: back into the pool that the deleter names, or destroyed. */
    method Release(i: Item, valid: bool)
      requires Valid() && i in deleter && i !in items
      modifies this`items, this`attached, this`deleter
      ensures Valid()
      ensures Released(i, valid, old(items), old(deleter), items, deleter, attached - old(attached))
    {
      if deleter[i] {
        Detach(i);
        Push(i, valid);
      } else {
        Destroy(i);
      }
    }

    /** `detach`, and `attach` to another pool. */
    method Detach(i: Item)
      requires Valid() && i in deleter && i !in items
      modifies this`attached, this`deleter
      ensures Valid() && Renamed(i, false, old(deleter), deleter, attached - old(attached))
    {
      if deleter[i] {
        OwnerGoes(deleter, i);
        attached := attached - 1;
      } else {
        assert Owned(deleter[i := false]) == Owned(deleter);
      }
      deleter := deleter[i := false];
    }

    /** `attach` to this pool. */
    method Attach(i: Item)
      requires Valid() && i in deleter && i !in items
      modifies this`attached, this`deleter
      ensures Valid() && Renamed(i, true, old(deleter), deleter, attached - old(attached))
    {
      Detach(i);
      Adopt(i);
    }

    /** `erase_invalid`: the valid items stay in their order, the others are destroyed. */
    method EraseInvalid(valid: set<Item>) returns (doomed: seq<Item>)
      requires Valid()
      modifies this`items, this`deleter
      ensures Valid()
      ensures Erased(valid, old(items), old(deleter), items, deleter)
      ensures doomed == P.Kept(old(items), P.Elements(old(items)) - valid)
    {
      ghost var list := items;
      ghost var n := 0;
      var it := 0;
      doomed := [];
      assert list[..0] == [] && list[0..] == list;
      while it < |items|
        modifies this`items
        invariant Sifted(list, n, valid, items, it, doomed)
        decreases |list| - n
      {
        Sift(list, n, valid, items, it, doomed);
        n := n + 1;
        var item := items[it];
        if item !in valid {
          items, doomed := items[..it] + items[it + 1..], doomed + [item];
        } else {
          it := it + 1;
        }
      }
      SiftEnds(list, n, valid, items, it, doomed);
      DeleteDoomed(list, valid, doomed);
    }

    /** The end of the scope of `deferred_delete`. */
    method DeleteDoomed(ghost list: seq<Item>, valid: set<Item>, doomed: seq<Item>)
      requires PoolPlaces.Distinct(list) && (forall i :: i in list ==> i in deleter && !deleter[i])
      requires attached == |Owned(deleter)| - failures && items == P.Kept(list, valid)
      requires doomed == P.Kept(list, P.Elements(list) - valid)
      modifies this`deleter
      ensures Valid() && deleter == P.Without(old(deleter), P.Elements(list) - valid)
    {
      PoolPlaces.KeptIsDistinct(list, valid);
      forall i ensures (i in items <==> i in list && i in valid) && (i in doomed <==> i in list && i !in valid) {
        PoolPlaces.KeptAreTheValid(list, valid, i);
        PoolPlaces.KeptAreTheValid(list, P.Elements(list) - valid, i);
      }
      deleter := P.Without(deleter, P.Elements(doomed));
      assert P.Elements(doomed) == P.Elements(list) - valid;
      assert Owned(deleter) == Owned(old(deleter));
    }
  }
}
