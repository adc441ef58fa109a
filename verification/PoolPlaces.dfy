/** Every item is in one place, before and after every step of the pool. */
module PoolPlaces {
  import opened Basics
  import opened PoolProtocol

  /** In a list; held by users, perhaps while a thread attaches it; or carried by a thread. */
  datatype Place = In(p: PoolId) | Lent(worker: Option<Thread>) | With(t: Thread)

  predicate ItemFits(s: State, place: Place, i: Item)
    requires i in s.deleter
  {
    match place
    case In(p) => p in s.lists && i in s.lists[p] && s.deleter[i] == None && i !in s.handles
    case Lent(u) => i in s.handles && (u.Some? ==> u.value < |s.pcs| && Working(s.pcs[u.value]) == Some(i))
    case With(t) => t < |s.pcs| && i in Carried(s.pcs[t]) && i !in s.handles
  }

  predicate ItemOk(s: State, w: map<Item, Place>, i: Item) {
    && i in w && i in s.deleter && i < s.made
    && (s.deleter[i].Some? ==> s.deleter[i].value < s.pools)
    && ItemFits(s, w[i], i)
  }

  /** What a thread knows of the deleter of its item at each point. */
  predicate DeleterOk(s: State, pc: Pc) {
    match pc
    case GetCheck(_, i) => i in s.deleter && s.deleter[i] == None
    case GetAdopt(_, i) => i in s.deleter && s.deleter[i] == None
    case GetCount(p, i) => i in s.deleter && s.deleter[i] == Some(p)
    case CreateCount(p, i) => i in s.deleter && s.deleter[i] == Some(p)
    case DropUncount(p, i) => i in s.deleter && s.deleter[i] == Some(p)
    case AttachUncount(i, p, target) =>
      i in s.deleter && s.deleter[i] == Some(p) && (target.Some? ==> target.value < s.pools)
    case AttachCount(i, p) => i in s.deleter && s.deleter[i] == Some(p)
    case AttachLock(_, target) => target.Some? ==> target.value < s.pools
    case AttachSet(_, target) => target.Some? ==> target.value < s.pools
    case _ => true
  }

  predicate ThreadOk(s: State, w: map<Item, Place>, t: Thread)
    requires t < |s.pcs|
  {
    var pc := s.pcs[t];
    && (forall i :: i in Carried(pc) ==> i in w && w[i] == With(t))
    && (Working(pc).Some? ==> Working(pc).value in w && w[Working(pc).value] == Lent(Some(t)))
    && (Using(pc).Some? ==> Using(pc).value in s.lists)
    && DeleterOk(s, pc)
    && (pc.EraseDelete? ==> forall i :: i in pc.doomed && i in s.deleter ==> s.deleter[i] == None)
  }

  predicate Distinct(list: seq<Item>) {
    forall j, k :: 0 <= j < k < |list| ==> list[j] != list[k]
  }

  predicate ListOk(s: State, w: map<Item, Place>, p: PoolId)
    requires p in s.lists
  {
    && p < s.pools && p in s.attached && Distinct(s.lists[p])
    && forall i :: i in s.lists[p] ==> i in w && w[i] == In(p)
  }

  predicate HandleOk(s: State, w: map<Item, Place>, i: Item)
    requires i in s.handles
  {
    s.handles[i] >= 1 && i in w && w[i].Lent?
  }

  predicate Located(s: State, w: map<Item, Place>) {
    && w.Keys == s.deleter.Keys
    && (forall i {:trigger ItemOk(s, w, i)} :: i in w ==> ItemOk(s, w, i))
    && (forall t {:trigger ThreadOk(s, w, t)} :: 0 <= t < |s.pcs| ==> ThreadOk(s, w, t))
    && (forall p {:trigger ListOk(s, w, p)} :: p in s.lists ==> ListOk(s, w, p))
    && (forall i {:trigger HandleOk(s, w, i)} :: i in s.handles ==> HandleOk(s, w, i))
    && (forall p {:trigger p in s.attached} :: p in s.attached ==> p in s.lists)
  }

  // ---------- one step changes little ----------

  /** Apart from numbers of handles, both states agree on all but the items `touched`, thread `t` and pool `p`. */
  ghost predicate Elsewhere(s: State, w: map<Item, Place>, s': State, w': map<Item, Place>,
      touched: set<Item>, t: Thread, p: PoolId) {
    && |s'.pcs| == |s.pcs| && s.made <= s'.made && s.pools <= s'.pools
    && (forall u :: 0 <= u < |s.pcs| && u != t ==> s'.pcs[u] == s.pcs[u])
    && (forall i :: i !in touched ==>
          && (i in w' <==> i in w) && (i in w ==> w'[i] == w[i])
          && (i in s'.deleter <==> i in s.deleter) && (i in s.deleter ==> s'.deleter[i] == s.deleter[i])
          && (i in s'.handles <==> i in s.handles) && (i in s.handles && s.handles[i] >= 1 ==> s'.handles[i] >= 1))
    && (forall q :: q != p ==>
          && (q in s'.lists <==> q in s.lists) && (q in s.lists ==> s'.lists[q] == s.lists[q])
          && (q in s'.attached <==> q in s.attached))
  }

  /** The touched items belong to the thread, to the list, or to users only. */
  predicate Touchable(s: State, w: map<Item, Place>, touched: set<Item>, t: Thread, p: PoolId) {
    && (forall i :: i in touched && i in w ==>
          w[i] == In(p) || w[i] == With(t) || w[i] == Lent(None) || w[i] == Lent(Some(t)))
    && (t < |s.pcs| ==> Carried(s.pcs[t]) <= touched
                        && (Working(s.pcs[t]).Some? ==> Working(s.pcs[t]).value in touched))
  }

  /** Untouched items of the list stay in it. */
  predicate StillListed(s: State, s': State, touched: set<Item>, p: PoolId) {
    p in s.lists ==> forall i :: i in s.lists[p] && i !in touched ==> p in s'.lists && i in s'.lists[p]
  }

  lemma ThreadStays(s: State, w: map<Item, Place>, s': State, w': map<Item, Place>,
      touched: set<Item>, t: Thread, p: PoolId, u: Thread)
    requires Elsewhere(s, w, s', w', touched, t, p) && Touchable(s, w, touched, t, p)
    requires u < |s.pcs| && u != t && ThreadOk(s, w, u)
    requires p in s'.lists || p !in s.lists || Using(s.pcs[u]) != Some(p)
    ensures ThreadOk(s', w', u)
  {
    var pc := s.pcs[u];
    assert s'.pcs[u] == pc;
    forall i | i in Carried(pc) ensures i !in touched && i in w' && w'[i] == With(u) {
      assert w[i] == With(u);
    }
    if Working(pc).Some? {
      assert Working(pc).value !in touched;
    }
  }

  /** It is enough to look at what a step touches. */
  lemma LocatedAfter(s: State, w: map<Item, Place>, s': State, w': map<Item, Place>,
      touched: set<Item>, t: Thread, p: PoolId)
    requires Located(s, w) && Elsewhere(s, w, s', w', touched, t, p) && Touchable(s, w, touched, t, p)
    requires StillListed(s, s', touched, p) && w'.Keys == s'.deleter.Keys
    requires forall i :: i in touched && i in w' ==> ItemOk(s', w', i)
    requires forall i :: i in touched && i in s'.handles ==> HandleOk(s', w', i)
    requires t < |s.pcs| ==> ThreadOk(s', w', t)
    requires p in s'.lists ==> ListOk(s', w', p)
    requires p in s'.attached ==> p in s'.lists
    requires p in s.lists && p !in s'.lists ==>
               forall u :: 0 <= u < |s.pcs| && u != t ==> Using(s.pcs[u]) != Some(p)
    ensures Located(s', w')
  {
    forall i | i in w' ensures ItemOk(s', w', i) {
      if i !in touched {
        assert ItemOk(s, w, i);
      }
    }
    forall u | 0 <= u < |s'.pcs| ensures ThreadOk(s', w', u) {
      if u != t {
        assert ThreadOk(s, w, u);
        ThreadStays(s, w, s', w', touched, t, p, u);
      }
    }
    forall q | q in s'.lists ensures ListOk(s', w', q) {
      if q != p {
        assert ListOk(s, w, q);
      }
    }
    forall i | i in s'.handles ensures HandleOk(s', w', i) {
      if i !in touched {
        assert HandleOk(s, w, i);
      }
    }
  }

  lemma NextPoolIsNew(s: State, w: map<Item, Place>)
    requires Located(s, w)
    ensures s.pools !in s.lists && s.pools !in s.attached
  {
    forall p | p in s.lists ensures p < s.pools {
      assert ListOk(s, w, p);
    }
  }

  lemma NextItemIsNew(s: State, w: map<Item, Place>)
    requires Located(s, w)
    ensures s.made !in s.deleter && s.made !in s.handles && s.made !in w
  {
    forall i | i in w ensures i < s.made {
      assert ItemOk(s, w, i);
    }
    forall i | i in s.handles ensures i in w {
      assert HandleOk(s, w, i);
    }
  }

  /** The places after a step. */
  function Moved(s: State, w: map<Item, Place>, e: Event): map<Item, Place>
    requires Enabled(s, e)
  {
    match e
    case NewPool => w
    case PoolDies(p) => Without(w, Elements(s.lists[p]))
    case StartGet(_, _) => w
    case StartCreate(_, _) => w
    case StartAttach(t, i, _) => w[i := Lent(Some(t))]
    case Copy(_) => w
    case Release(t, i) => if s.handles[i] > 1 then w else w[i := With(t)]
    case Erase(t, p, valid) =>
      map i | i in w :: if i in s.lists[p] && i !in valid then With(t) else w[i]
    case Advance(t, ok) => MovedBy(s, w, t, ok)
    case FailAllocation(t) => w[s.made := With(t)]
  }

  function MovedBy(s: State, w: map<Item, Place>, t: Thread, ok: bool): map<Item, Place>
    requires t < |s.pcs|
  {
    match s.pcs[t]
    case GetPull(p) =>
      if p !in s.lists || s.lists[p] == [] then w else w[s.lists[p][|s.lists[p]| - 1] := With(t)]
    case GetCheck(_, i) => if ok then w else Without(w, {i})
    case GetCount(_, i) => w[i := Lent(None)]
    case CreateMake(_) => if ok then w[s.made := With(t)] else w
    case CreateCount(_, i) => w[i := Lent(None)]
    case DropLock(i) => if Lock(s, if i in s.deleter then s.deleter[i] else None).Some? then w else Without(w, {i})
    case DropCheck(_, i) => if ok then w else Without(w, {i})
    case DropList(p, i) => w[i := In(p)]
    case AttachRelock(i) =>
      if Lock(s, if i in s.deleter then s.deleter[i] else None).Some? then w else w[i := Lent(None)]
    case AttachCount(i, _) => w[i := Lent(None)]
    case EraseDelete(doomed) => Without(w, doomed)
    case _ => w
  }

  /** As `LocatedAfter`, for steps that change no list. */
  lemma QuietAfter(s: State, w: map<Item, Place>, s': State, w': map<Item, Place>, touched: set<Item>, t: Thread)
    requires Located(s, w)
    requires s'.lists == s.lists && s'.attached.Keys == s.attached.Keys && s'.pools == s.pools
    requires t < |s.pcs| && Elsewhere(s, w, s', w', touched, t, s.pools) && Touchable(s, w, touched, t, s.pools)
    requires forall i :: i in touched && i in w ==> !w[i].In?
    requires w'.Keys == s'.deleter.Keys
    requires forall i :: i in touched && i in w' ==> ItemOk(s', w', i)
    requires forall i :: i in touched && i in s'.handles ==> HandleOk(s', w', i)
    requires ThreadOk(s', w', t)
    ensures Located(s', w')
  {
    NextPoolIsNew(s, w);
    LocatedAfter(s, w, s', w', touched, t, s.pools);
  }

  lemma GotoIsLocated(s: State, w: map<Item, Place>, t: Thread, pc: Pc)
    requires Located(s, w) && t < |s.pcs|
    requires Carried(pc) == Carried(s.pcs[t]) && Working(pc) == Working(s.pcs[t]) && !pc.EraseDelete?
    requires (Using(pc).Some? ==> Using(pc).value in s.lists) && DeleterOk(s, pc)
    ensures Located(Goto(s, t, pc), w)
  {
    assert ThreadOk(s, w, t);
    var touched := Carried(pc) + if Working(pc).Some? then {Working(pc).value} else {};
    forall i | i in touched && i in w ensures ItemOk(Goto(s, t, pc), w, i) {
      assert ItemOk(s, w, i);
    }
    forall i | i in touched && i in s.handles ensures HandleOk(Goto(s, t, pc), w, i) {
      assert HandleOk(s, w, i);
    }
    QuietAfter(s, w, Goto(s, t, pc), w, touched, t);
  }

  lemma BumpIsLocated(s: State, w: map<Item, Place>, p: PoolId, change: int)
    requires Located(s, w)
    ensures Located(s.(attached := Bump(s.attached, p, change)), w)
  {
    NextPoolIsNew(s, w);
    LocatedAfter(s, w, s.(attached := Bump(s.attached, p, change)), w, {}, |s.pcs|, s.pools);
  }

  lemma HandlesAreLocated(s: State, w: map<Item, Place>, i: Item, n: nat)
    requires Located(s, w) && i in s.handles && n >= 1
    ensures Located(s.(handles := s.handles[i := n]), w)
  {
    NextPoolIsNew(s, w);
    LocatedAfter(s, w, s.(handles := s.handles[i := n]), w, {}, |s.pcs|, s.pools);
  }

  /** A thread that deletes all it carries. */
  lemma DeleteIsLocated(s: State, w: map<Item, Place>, t: Thread, pc: Pc)
    requires Located(s, w) && t < |s.pcs| && Working(s.pcs[t]).None?
    requires Carried(pc) == {} && Working(pc).None? && (Using(pc).Some? ==> Using(pc).value in s.lists)
    requires DeleterOk(s, pc)
    ensures var gone := Carried(s.pcs[t]);
            Located(Goto(s, t, pc).(deleter := Without(s.deleter, gone)), Without(w, gone))
  {
    var gone := Carried(s.pcs[t]);
    assert ThreadOk(s, w, t);
    var s' := Goto(s, t, pc).(deleter := Without(s.deleter, gone));
    var w' := Without(w, gone);
    forall i | i in s.handles ensures i !in gone {
      assert HandleOk(s, w, i);
    }
    QuietAfter(s, w, s', w', gone, t);
  }

  /** A thread that gives the item it carries to its caller. */
  lemma HandOutIsLocated(s: State, w: map<Item, Place>, t: Thread, i: Item)
    requires Located(s, w) && t < |s.pcs| && Working(s.pcs[t]).None? && Carried(s.pcs[t]) == {i}
    ensures Located(Goto(s, t, Idle).(handles := s.handles[i := 1]), w[i := Lent(None)])
  {
    assert ThreadOk(s, w, t) && i in Carried(s.pcs[t]);
    assert ItemOk(s, w, i);
    QuietAfter(s, w, Goto(s, t, Idle).(handles := s.handles[i := 1]), w[i := Lent(None)], {i}, t);
  }

  /** A thread that sets the deleter of its item. */
  lemma NameIsLocated(s: State, w: map<Item, Place>, t: Thread, pc: Pc, i: Item, named: Option<PoolId>)
    requires Located(s, w) && t < |s.pcs| && (named.Some? ==> named.value < s.pools)
    requires Carried(pc) == Carried(s.pcs[t]) && Working(pc) == Working(s.pcs[t]) && !pc.EraseDelete?
    requires Carried(pc) + (if Working(pc).Some? then {Working(pc).value} else {}) == {i}
    requires Using(pc).Some? ==> Using(pc).value in s.lists
    requires DeleterOk(s.(deleter := s.deleter[i := named]), pc)
    ensures Located(Goto(s, t, pc).(deleter := s.deleter[i := named]), w)
  {
    assert ThreadOk(s, w, t) && i in {i};
    assert ItemOk(s, w, i);
    if i in s.handles {
      assert HandleOk(s, w, i);
    }
    QuietAfter(s, w, Goto(s, t, pc).(deleter := s.deleter[i := named]), w, {i}, t);
  }

  /** A thread that begins or ends to attach an item. */
  lemma WorkIsLocated(s: State, w: map<Item, Place>, t: Thread, pc: Pc, i: Item)
    requires Located(s, w) && t < |s.pcs| && i in w && i in s.handles
    requires Carried(s.pcs[t]) == {} && Carried(pc) == {} && Using(pc).None? && DeleterOk(s, pc)
    requires (s.pcs[t].Idle? && Working(pc) == Some(i) && w[i] == Lent(None))
          || (pc.Idle? && Working(s.pcs[t]) == Some(i))
    ensures Located(Goto(s, t, pc), w[i := if pc.Idle? then Lent(None) else Lent(Some(t))])
  {
    assert ThreadOk(s, w, t);
    assert ItemOk(s, w, i);
    assert HandleOk(s, w, i);
    QuietAfter(s, w, Goto(s, t, pc), w[i := if pc.Idle? then Lent(None) else Lent(Some(t))], {i}, t);
  }

  /** A user that drops the last handle. */
  lemma DropIsLocated(s: State, w: map<Item, Place>, t: Thread, i: Item)
    requires Located(s, w) && Ready(s, t) && i in s.handles && i in w && w[i] == Lent(None)
    ensures Located(Goto(s, t, DropLock(i)).(handles := Without(s.handles, {i})), w[i := With(t)])
  {
    assert ThreadOk(s, w, t);
    assert ItemOk(s, w, i);
    QuietAfter(s, w, Goto(s, t, DropLock(i)).(handles := Without(s.handles, {i})), w[i := With(t)], {i}, t);
  }

  lemma UnworkedIsLent(s: State, w: map<Item, Place>, i: Item)
    requires Located(s, w) && i in s.handles && Unworked(s, i)
    ensures i in w && w[i] == Lent(None)
  {
    assert HandleOk(s, w, i);
    assert ItemOk(s, w, i);
  }

  /** A thread that makes a new item. */
  lemma MakeIsLocated(s: State, w: map<Item, Place>, t: Thread, p: PoolId, pc: Pc, s': State)
    requires Located(s, w) && t < |s.pcs| && s.pcs[t] == CreateMake(p)
    requires pc == CreateCount(p, s.made) || pc == DropLock(s.made)
    requires s' == Goto(s, t, pc).(made := s.made + 1, deleter := s.deleter[s.made := Some(p)], failures := s'.failures)
    ensures Located(s', w[s.made := With(t)])
  {
    var i := s.made;
    var w' := w[i := With(t)];
    NextItemIsNew(s, w);
    assert ThreadOk(s, w, t) && p in s.lists;
    assert ListOk(s, w, p);
    MadeIsOk(s', w', t, pc, i);
    QuietAfter(s, w, s', w', {i}, t);
  }

  lemma MadeIsOk(s': State, w': map<Item, Place>, t: Thread, pc: Pc, i: Item)
    requires t < |s'.pcs| && s'.pcs[t] == pc && (pc.CreateCount? || pc.DropLock?) && pc.i == i
    requires i in w' && w'[i] == With(t) && i in s'.deleter && i < s'.made && i !in s'.handles
    requires s'.deleter[i].Some? && s'.deleter[i].value < s'.pools && s'.deleter[i].value in s'.lists
    requires pc.CreateCount? ==> s'.deleter[i] == Some(pc.p)
    ensures ItemOk(s', w', i) && ThreadOk(s', w', t)
  {
  }

  /** `pull`: the item returned last. */
  lemma PullIsLocated(s: State, w: map<Item, Place>, t: Thread, p: PoolId, last: nat, i: Item)
    requires Located(s, w) && t < |s.pcs| && s.pcs[t] == GetPull(p)
    requires p in s.lists && last == |s.lists[p]| - 1 && i == s.lists[p][last]
    ensures Located(Goto(s, t, GetCheck(p, i)).(lists := s.lists[p := s.lists[p][..last]]), w[i := With(t)])
  {
    var s' := Goto(s, t, GetCheck(p, i)).(lists := s.lists[p := s.lists[p][..last]]);
    assert ListOk(s, w, p) && i in s.lists[p];
    assert ThreadOk(s, w, t);
    assert ItemOk(s, w, i);
    forall j | j in s.lists[p] && j != i ensures j in s'.lists[p] {
      var k :| 0 <= k < |s.lists[p]| && s.lists[p][k] == j;
      assert s'.lists[p][k] == j;
    }
    LocatedAfter(s, w, s', w[i := With(t)], {i}, t, p);
  }

  /** The end of `push`. */
  lemma PushIsLocated(s: State, w: map<Item, Place>, t: Thread, p: PoolId, i: Item)
    requires Located(s, w) && t < |s.pcs| && s.pcs[t] == DropList(p, i) && p in s.lists
    ensures Located(Goto(s, t, Idle).(deleter := s.deleter[i := None], lists := s.lists[p := s.lists[p] + [i]]),
                    w[i := In(p)])
  {
    var s' := Goto(s, t, Idle).(deleter := s.deleter[i := None], lists := s.lists[p := s.lists[p] + [i]]);
    assert ListOk(s, w, p);
    assert ThreadOk(s, w, t) && i in Carried(s.pcs[t]);
    assert ItemOk(s, w, i);
    LocatedAfter(s, w, s', w[i := In(p)], {i}, t, p);
  }

  lemma {:induction false} KeptAreTheValid(list: seq<Item>, valid: set<Item>, i: Item)
    ensures i in Kept(list, valid) <==> i in list && i in valid
  {
    if list != [] {
      KeptAreTheValid(list[1..], valid, i);
      assert list == [list[0]] + list[1..];
    }
  }

  lemma {:induction false} KeptIsDistinct(list: seq<Item>, valid: set<Item>)
    requires Distinct(list)
    ensures Distinct(Kept(list, valid))
  {
    if list != [] {
      assert list == [list[0]] + list[1..];
      KeptIsDistinct(list[1..], valid);
      KeptAreTheValid(list[1..], valid, list[0]);
    }
  }

  lemma {:induction false} KeptListIsOk(s: State, w: map<Item, Place>, s': State, w': map<Item, Place>, p: PoolId,
                                        valid: set<Item>)
    requires p in s.lists && ListOk(s, w, p) && p in s'.lists && s'.lists[p] == Kept(s.lists[p], valid)
    requires p < s'.pools && p in s'.attached
    requires forall i :: i in w && i in valid ==> i in w' && w'[i] == w[i]
    ensures ListOk(s', w', p)
    ensures forall i :: i in s.lists[p] && i in valid ==> i in s'.lists[p]
  {
    KeptIsDistinct(s.lists[p], valid);
    forall i ensures i in s'.lists[p] <==> i in s.lists[p] && i in valid {
      KeptAreTheValid(s.lists[p], valid, i);
    }
  }

  lemma DoomedAreCarried(s: State, w: map<Item, Place>, t: Thread, p: PoolId, valid: set<Item>, i: Item)
    requires Located(s, w) && Ready(s, t) && p in s.lists && i in s.lists[p] && i !in valid
    ensures ItemOk(Step(s, Erase(t, p, valid)), Moved(s, w, Erase(t, p, valid)), i)
    ensures i in w && w[i] == In(p) && i !in s.handles && s.deleter[i] == None
  {
    assert ListOk(s, w, p);
    assert ItemOk(s, w, i);
  }

  lemma EraseIsLocated(s: State, w: map<Item, Place>, t: Thread, p: PoolId, valid: set<Item>)
    requires Located(s, w) && Ready(s, t) && p in s.lists
    ensures Located(Step(s, Erase(t, p, valid)), Moved(s, w, Erase(t, p, valid)))
  {
    var s' := Step(s, Erase(t, p, valid));
    var w' := Moved(s, w, Erase(t, p, valid));
    var gone := Elements(s.lists[p]) - valid;
    assert ListOk(s, w, p);
    forall i | i in gone
      ensures ItemOk(s', w', i) && i !in s'.handles && w[i] == In(p) && w'[i] == With(t) && s'.deleter[i] == None
    {
      DoomedAreCarried(s, w, t, p, valid, i);
    }
    KeptListIsOk(s, w, s', w', p, valid);
    assert ThreadOk(s', w', t);
    LocatedAfter(s, w, s', w', gone, t, p);
  }

  lemma NewPoolIsLocated(s: State, w: map<Item, Place>)
    requires Located(s, w)
    ensures Located(Step(s, NewPool), w)
  {
    NextPoolIsNew(s, w);
    LocatedAfter(s, w, Step(s, NewPool), w, {}, |s.pcs|, s.pools);
  }

  lemma PoolDeathIsLocated(s: State, w: map<Item, Place>, p: PoolId)
    requires Located(s, w) && Enabled(s, PoolDies(p))
    ensures Located(Step(s, PoolDies(p)), Moved(s, w, PoolDies(p)))
  {
    assert ListOk(s, w, p);
    var gone := Elements(s.lists[p]);
    forall i | i in s.handles ensures i !in gone {
      assert HandleOk(s, w, i);
    }
    LocatedAfter(s, w, Step(s, PoolDies(p)), Moved(s, w, PoolDies(p)), gone, |s.pcs|, p);
  }

  // ---------- every step ----------

  lemma AdvanceGetIsLocated(s: State, w: map<Item, Place>, t: Thread, ok: bool)
    requires Located(s, w) && t < |s.pcs|
    requires s.pcs[t].GetPull? || s.pcs[t].GetCheck? || s.pcs[t].GetAdopt? || s.pcs[t].GetCount?
          || s.pcs[t].CreateMake? || s.pcs[t].CreateCount?
    ensures Located(Advanced(s, t, ok), MovedBy(s, w, t, ok))
  {
    assert ThreadOk(s, w, t);
    match s.pcs[t]
    case GetPull(p) =>
      if s.lists[p] == [] {
        GotoIsLocated(s, w, t, CreateMake(p));
      } else {
        PullIsLocated(s, w, t, p, |s.lists[p]| - 1, s.lists[p][|s.lists[p]| - 1]);
      }
    case GetCheck(p, i) =>
      if ok {
        GotoIsLocated(s, w, t, GetAdopt(p, i));
      } else {
        DeleteIsLocated(s, w, t, GetPull(p));
      }
    case GetAdopt(p, i) =>
      assert ListOk(s, w, p);
      NameIsLocated(s, w, t, GetCount(p, i), i, Some(p));
    case GetCount(p, i) =>
      HandOutIsLocated(s, w, t, i);
      BumpIsLocated(Goto(s, t, Idle).(handles := s.handles[i := 1]), w[i := Lent(None)], p, 1);
    case CreateMake(p) =>
      if ok {
        MakeIsLocated(s, w, t, p, CreateCount(p, s.made), Advanced(s, t, ok));
      } else {
        GotoIsLocated(s, w, t, Idle);
      }
    case CreateCount(p, i) =>
      HandOutIsLocated(s, w, t, i);
      BumpIsLocated(Goto(s, t, Idle).(handles := s.handles[i := 1]), w[i := Lent(None)], p, 1);
  }

  lemma AdvanceDropIsLocated(s: State, w: map<Item, Place>, t: Thread, ok: bool)
    requires Located(s, w) && t < |s.pcs|
    requires s.pcs[t].DropLock? || s.pcs[t].DropUncount? || s.pcs[t].DropCheck? || s.pcs[t].DropList?
          || s.pcs[t].EraseDelete?
    ensures Located(Advanced(s, t, ok), MovedBy(s, w, t, ok))
  {
    assert ThreadOk(s, w, t);
    match s.pcs[t]
    case DropLock(i) =>
      var p := Lock(s, if i in s.deleter then s.deleter[i] else None);
      if p.Some? {
        GotoIsLocated(s, w, t, DropUncount(p.value, i));
      } else {
        DeleteIsLocated(s, w, t, Idle);
      }
    case DropUncount(p, i) =>
      GotoIsLocated(s, w, t, DropCheck(p, i));
      BumpIsLocated(Goto(s, t, DropCheck(p, i)), w, p, -1);
    case DropCheck(p, i) =>
      if ok {
        GotoIsLocated(s, w, t, DropList(p, i));
      } else {
        DeleteIsLocated(s, w, t, Idle);
      }
    case DropList(p, i) => PushIsLocated(s, w, t, p, i);
    case EraseDelete(_) => DeleteIsLocated(s, w, t, Idle);
  }

  lemma AdvanceAttachIsLocated(s: State, w: map<Item, Place>, t: Thread, ok: bool)
    requires Located(s, w) && t < |s.pcs| && Working(s.pcs[t]).Some?
    ensures Located(Advanced(s, t, ok), MovedBy(s, w, t, ok))
  {
    assert ThreadOk(s, w, t);
    var i := Working(s.pcs[t]).value;
    assert ItemOk(s, w, i);
    match s.pcs[t]
    case AttachLock(_, target) =>
      var p := Lock(s, s.deleter[i]);
      GotoIsLocated(s, w, t, if p.Some? then AttachUncount(i, p.value, target) else AttachSet(i, target));
    case AttachUncount(_, p, target) =>
      GotoIsLocated(s, w, t, AttachSet(i, target));
      BumpIsLocated(Goto(s, t, AttachSet(i, target)), w, p, -1);
    case AttachSet(_, target) => NameIsLocated(s, w, t, AttachRelock(i), i, target);
    case AttachRelock(_) =>
      var p := Lock(s, s.deleter[i]);
      if p.Some? {
        GotoIsLocated(s, w, t, AttachCount(i, p.value));
      } else {
        WorkIsLocated(s, w, t, Idle, i);
      }
    case AttachCount(_, p) =>
      WorkIsLocated(s, w, t, Idle, i);
      BumpIsLocated(Goto(s, t, Idle), w[i := Lent(None)], p, 1);
  }

  /** Every step leaves every item in one place. */
  lemma StepIsLocated(s: State, w: map<Item, Place>, e: Event)
    requires Located(s, w) && Enabled(s, e)
    ensures Located(Step(s, e), Moved(s, w, e))
  {
    match e
    case NewPool => NewPoolIsLocated(s, w);
    case PoolDies(p) => PoolDeathIsLocated(s, w, p);
    case StartGet(t, p) => GotoIsLocated(s, w, t, GetPull(p));
    case StartCreate(t, p) => GotoIsLocated(s, w, t, CreateMake(p));
    case StartAttach(t, i, target) =>
      UnworkedIsLent(s, w, i);
      WorkIsLocated(s, w, t, AttachLock(i, target), i);
    case Copy(i) => HandlesAreLocated(s, w, i, s.handles[i] + 1);
    case Release(t, i) =>
      if s.handles[i] > 1 {
        HandlesAreLocated(s, w, i, s.handles[i] - 1);
      } else {
        UnworkedIsLent(s, w, i);
        DropIsLocated(s, w, t, i);
      }
    case Erase(t, p, valid) => EraseIsLocated(s, w, t, p, valid);
    case Advance(t, ok) =>
      if Working(s.pcs[t]).Some? {
        AdvanceAttachIsLocated(s, w, t, ok);
      } else if Using(s.pcs[t]).Some? && !s.pcs[t].DropUncount? && !s.pcs[t].DropCheck? && !s.pcs[t].DropList? {
        AdvanceGetIsLocated(s, w, t, ok);
      } else {
        AdvanceDropIsLocated(s, w, t, ok);
      }
    case FailAllocation(t) => MakeIsLocated(s, w, t, s.pcs[t].p, DropLock(s.made), Step(s, e));
  }
}
