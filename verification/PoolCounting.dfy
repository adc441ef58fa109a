/**
  `m_attached`: the counter of a pool is the number of items that are counted for it, at every point
  of every interleaving, less the number of items that `create` could not allocate a `shared_ptr` for.
 */
module PoolCounting {
  import opened Basics
  import opened PoolProtocol
  import opened PoolPlaces

  /** While a thread that works on an item is here, the item still counts for the pool its deleter names. */
  predicate StillCounts(pc: Pc) {
    pc.AttachLock? || pc.AttachUncount? || pc.DropLock? || pc.DropUncount?
  }

  predicate Counts(s: State, place: Place) {
    match place
    case In(_) => false
    case Lent(u) => u.None? || (u.value < |s.pcs| && StillCounts(s.pcs[u.value]))
    case With(t) => t < |s.pcs| && StillCounts(s.pcs[t])
  }

  /** The item is one of those that the counter of `p` stands for. */
  predicate CountedFor(s: State, w: map<Item, Place>, p: PoolId, i: Item) {
    i in w && i in s.deleter && s.deleter[i] == Some(p) && Counts(s, w[i])
  }

  function Members(s: State, w: map<Item, Place>, p: PoolId): set<Item> {
    set i | i in s.deleter && CountedFor(s, w, p, i)
  }

  ghost predicate FailuresOfPools(s: State) {
    forall p {:trigger s.failures[p]} :: s.pools <= p ==> s.failures[p] == 0
  }

  ghost predicate Counted(s: State, w: map<Item, Place>) {
    && FailuresOfPools(s)
    && (forall p {:trigger Members(s, w, p)} :: p in s.lists ==>
          p in s.attached && s.attached[p] == |Members(s, w, p)| - s.failures[p])
  }

  /** For which pool an item begins or ceases to count. */
  datatype Change = Same | Plus(i: Item, p: PoolId) | Minus(i: Item, p: PoolId)

  function ChangeOf(s: State, e: Event): Change {
    if e.FailAllocation? && e.t < |s.pcs| && s.pcs[e.t].CreateMake? then Plus(s.made, s.pcs[e.t].p)
    else if !e.Advance? || e.t >= |s.pcs| then Same
    else
      match s.pcs[e.t]
      case GetCount(p, i) => Plus(i, p)
      case CreateCount(p, i) => Plus(i, p)
      case AttachCount(i, p) => Plus(i, p)
      case DropUncount(p, i) => Minus(i, p)
      case AttachUncount(i, p, _) => Minus(i, p)
      case _ => Same
  }

  predicate Changed(before: bool, change: Change, p: PoolId, i: Item, after: bool) {
    match change
    case Same => after == before
    case Plus(j, q) => if i == j && p == q then !before && after else after == before
    case Minus(j, q) => if i == j && p == q then before && !after else after == before
  }

  // ---------- what one step does to one item ----------

  /** The death of a pool destroys items that do not count; the doomed ones of a list do not count either. */
  lemma ListCounts(s: State, w: map<Item, Place>, e: Event, p: PoolId, i: Item)
    requires Located(s, w) && Enabled(s, e) && (e.PoolDies? || e.Erase? || e.NewPool?) && p in Step(s, e).lists
    ensures CountedFor(s, w, p, i) == CountedFor(Step(s, e), Moved(s, w, e), p, i)
  {
    if i in w {
      assert ItemOk(s, w, i);
    }
    if !e.NewPool? {
      assert ListOk(s, w, e.p);
    }
  }

  lemma StartCounts(s: State, w: map<Item, Place>, e: Event, p: PoolId, i: Item)
    requires Located(s, w) && Enabled(s, e) && p in s.lists
    requires e.StartGet? || e.StartCreate? || e.StartAttach? || e.Copy? || e.Release?
    ensures CountedFor(s, w, p, i) == CountedFor(Step(s, e), Moved(s, w, e), p, i)
  {
    if i in w {
      assert ItemOk(s, w, i);
    }
    if e.StartAttach? || (e.Release? && s.handles[e.i] == 1) {
      UnworkedIsLent(s, w, e.i);
    } else if e.Release? {
      assert HandleOk(s, w, e.i);
    }
  }

  lemma GetCounts(s: State, w: map<Item, Place>, t: Thread, ok: bool, p: PoolId, i: Item)
    requires Located(s, w) && t < |s.pcs| && p in s.lists
    requires s.pcs[t].GetPull? || s.pcs[t].GetCheck? || s.pcs[t].GetAdopt? || s.pcs[t].GetCount?
    ensures Changed(CountedFor(s, w, p, i), ChangeOf(s, Advance(t, ok)), p, i,
                    CountedFor(Advanced(s, t, ok), MovedBy(s, w, t, ok), p, i))
  {
    assert ThreadOk(s, w, t);
    if i in w {
      assert ItemOk(s, w, i);
    }
    if s.pcs[t].GetPull? {
      assert ListOk(s, w, s.pcs[t].p);
    }
  }

  lemma CreateCounts(s: State, w: map<Item, Place>, t: Thread, ok: bool, p: PoolId, i: Item)
    requires Located(s, w) && t < |s.pcs| && p in s.lists && (s.pcs[t].CreateMake? || s.pcs[t].CreateCount?)
    ensures Changed(CountedFor(s, w, p, i), ChangeOf(s, Advance(t, ok)), p, i,
                    CountedFor(Advanced(s, t, ok), MovedBy(s, w, t, ok), p, i))
  {
    assert ThreadOk(s, w, t);
    NextItemIsNew(s, w);
    if i in w {
      assert ItemOk(s, w, i);
    }
  }

  lemma DropCounts(s: State, w: map<Item, Place>, t: Thread, ok: bool, p: PoolId, i: Item)
    requires Located(s, w) && t < |s.pcs| && p in s.lists
    requires s.pcs[t].DropUncount? || s.pcs[t].DropCheck? || s.pcs[t].DropList?
    ensures Changed(CountedFor(s, w, p, i), ChangeOf(s, Advance(t, ok)), p, i,
                    CountedFor(Advanced(s, t, ok), MovedBy(s, w, t, ok), p, i))
  {
    assert ThreadOk(s, w, t);
    if i in w {
      assert ItemOk(s, w, i);
    }
  }

  lemma DeleteCounts(s: State, w: map<Item, Place>, t: Thread, ok: bool, p: PoolId, i: Item)
    requires Located(s, w) && t < |s.pcs| && p in s.lists
    requires s.pcs[t].DropLock? || s.pcs[t].EraseDelete?
    ensures CountedFor(s, w, p, i) == CountedFor(Advanced(s, t, ok), MovedBy(s, w, t, ok), p, i)
  {
    assert ThreadOk(s, w, t);
    if i in w {
      assert ItemOk(s, w, i);
    }
  }

  /** Items that the thread does not work on. */
  lemma AttachSpares(s: State, w: map<Item, Place>, t: Thread, ok: bool, p: PoolId, i: Item)
    requires Located(s, w) && t < |s.pcs| && Working(s.pcs[t]).Some? && Working(s.pcs[t]) != Some(i)
    ensures CountedFor(s, w, p, i) == CountedFor(Advanced(s, t, ok), MovedBy(s, w, t, ok), p, i)
  {
    assert ThreadOk(s, w, t);
    assert ItemOk(s, w, Working(s.pcs[t]).value);
    if i in w {
      assert ItemOk(s, w, i);
    }
  }

  /** The item that the thread works on. */
  lemma AttachMoves(s: State, w: map<Item, Place>, t: Thread, ok: bool, p: PoolId, i: Item)
    requires Located(s, w) && t < |s.pcs| && Working(s.pcs[t]) == Some(i) && p in s.lists
    ensures Changed(CountedFor(s, w, p, i), ChangeOf(s, Advance(t, ok)), p, i,
                    CountedFor(Advanced(s, t, ok), MovedBy(s, w, t, ok), p, i))
  {
    assert ThreadOk(s, w, t);
    assert ItemOk(s, w, i);
  }

  lemma AttachCounts(s: State, w: map<Item, Place>, t: Thread, ok: bool, p: PoolId, i: Item)
    requires Located(s, w) && t < |s.pcs| && Working(s.pcs[t]).Some? && p in s.lists
    ensures Changed(CountedFor(s, w, p, i), ChangeOf(s, Advance(t, ok)), p, i,
                    CountedFor(Advanced(s, t, ok), MovedBy(s, w, t, ok), p, i))
  {
    if Working(s.pcs[t]) == Some(i) {
      AttachMoves(s, w, t, ok, p, i);
    } else {
      AttachSpares(s, w, t, ok, p, i);
    }
  }

  /** The new item counts at once, before it was added to the counter. */
  lemma FailureCounts(s: State, w: map<Item, Place>, t: Thread, p: PoolId, i: Item)
    requires Located(s, w) && Enabled(s, FailAllocation(t)) && p in s.lists
    ensures var e := FailAllocation(t);
            Changed(CountedFor(s, w, p, i), ChangeOf(s, e), p, i, CountedFor(Step(s, e), Moved(s, w, e), p, i))
  {
    NextItemIsNew(s, w);
    assert ThreadOk(s, w, t);
    if i in w {
      assert ItemOk(s, w, i);
    }
  }

  lemma AdvanceCounts(s: State, w: map<Item, Place>, t: Thread, ok: bool, p: PoolId, i: Item)
    requires Located(s, w) && t < |s.pcs| && !s.pcs[t].Idle? && p in s.lists
    ensures Changed(CountedFor(s, w, p, i), ChangeOf(s, Advance(t, ok)), p, i,
                    CountedFor(Advanced(s, t, ok), MovedBy(s, w, t, ok), p, i))
  {
    var pc := s.pcs[t];
    if Working(pc).Some? {
      AttachCounts(s, w, t, ok, p, i);
    } else if pc.DropLock? || pc.EraseDelete? {
      DeleteCounts(s, w, t, ok, p, i);
    } else if pc.DropUncount? || pc.DropCheck? || pc.DropList? {
      DropCounts(s, w, t, ok, p, i);
    } else if pc.CreateMake? || pc.CreateCount? {
      CreateCounts(s, w, t, ok, p, i);
    } else {
      GetCounts(s, w, t, ok, p, i);
    }
  }

  lemma AdvanceKeepsPools(s: State, w: map<Item, Place>, t: Thread, ok: bool)
    requires Located(s, w) && t < |s.pcs|
    ensures Advanced(s, t, ok).lists.Keys == s.lists.Keys
  {
    assert ThreadOk(s, w, t);
  }

  /** A step changes for which pool an item counts only together with the counter of that pool. */
  lemma StepCounts(s: State, w: map<Item, Place>, e: Event, s': State, w': map<Item, Place>, p: PoolId, i: Item)
    requires Located(s, w) && Enabled(s, e) && s' == Step(s, e) && w' == Moved(s, w, e) && p in s'.lists
    ensures Changed(CountedFor(s, w, p, i), ChangeOf(s, e), p, i, CountedFor(s', w', p, i))
  {
    if e.Advance? {
      AdvanceKeepsPools(s, w, e.t, e.ok);
      AdvanceCounts(s, w, e.t, e.ok, p, i);
    } else if e.FailAllocation? {
      FailureCounts(s, w, e.t, p, i);
    } else if e.PoolDies? || e.Erase? || e.NewPool? {
      ListCounts(s, w, e, p, i);
    } else {
      StartCounts(s, w, e, p, i);
    }
  }

  // ---------- the counters ----------

  function Difference(c: Change, p: PoolId): int {
    match c
    case Same => 0
    case Plus(_, q) => if p == q then 1 else 0
    case Minus(_, q) => if p == q then -1 else 0
  }

  /** The counter with the failures added to it. */
  function Adjusted(s: State, p: PoolId): int
    requires p in s.attached
  {
    s.attached[p] + s.failures[p]
  }

  lemma AdvancedCounter(s: State, w: map<Item, Place>, t: Thread, ok: bool, p: PoolId)
    requires Located(s, w) && t < |s.pcs| && p in s.lists && p in s.attached
    ensures p in Advanced(s, t, ok).attached && Advanced(s, t, ok).failures == s.failures
    ensures Adjusted(Advanced(s, t, ok), p) == Adjusted(s, p) + Difference(ChangeOf(s, Advance(t, ok)), p)
  {
    assert ThreadOk(s, w, t);
  }

  lemma FailedCounter(s: State, w: map<Item, Place>, t: Thread, p: PoolId)
    requires Located(s, w) && Enabled(s, FailAllocation(t)) && p in s.lists && p in s.attached
    ensures p in Step(s, FailAllocation(t)).attached
    ensures Adjusted(Step(s, FailAllocation(t)), p) == Adjusted(s, p) + Difference(ChangeOf(s, FailAllocation(t)), p)
  {
    assert ThreadOk(s, w, t);
  }

  /** A counter changes when the set of counted items does, and starts at zero. */
  lemma CounterAfter(s: State, w: map<Item, Place>, e: Event, s': State, p: PoolId)
    requires Located(s, w) && Enabled(s, e) && s' == Step(s, e) && p in s'.lists
    ensures p in s'.attached
    ensures p in s.lists ==>
              p in s.attached && Adjusted(s', p) == Adjusted(s, p) + Difference(ChangeOf(s, e), p)
    ensures p !in s.lists ==> e.NewPool? && p == s.pools && s'.attached[p] == 0 && s'.failures == s.failures
  {
    if p in s.lists {
      assert ListOk(s, w, p);
    }
    if e.Advance? {
      AdvanceKeepsPools(s, w, e.t, e.ok);
      AdvancedCounter(s, w, e.t, e.ok, p);
    } else if e.FailAllocation? {
      FailedCounter(s, w, e.t, p);
    } else if e.NewPool? {
      NextPoolIsNew(s, w);
    }
  }

  lemma FailingPoolIsMade(s: State, w: map<Item, Place>, t: Thread)
    requires Located(s, w) && t < |s.pcs| && s.pcs[t].CreateMake?
    ensures s.pcs[t].p < s.pools
  {
    assert ThreadOk(s, w, t);
    assert ListOk(s, w, s.pcs[t].p);
  }

  /** Only pools that were made have failures. */
  lemma FailuresAfter(s: State, w: map<Item, Place>, e: Event, s': State)
    requires Located(s, w) && FailuresOfPools(s) && Enabled(s, e) && s' == Step(s, e)
    ensures FailuresOfPools(s')
  {
    if e.FailAllocation? {
      FailingPoolIsMade(s, w, e.t);
    }
  }

  lemma NewPoolCountsNothing(s: State, w: map<Item, Place>, p: PoolId)
    requires Located(s, w) && p !in s.lists && s.pools <= p
    ensures Members(s, w, p) == {}
  {
    forall i | i in s.deleter ensures !CountedFor(s, w, p, i) {
      assert ItemOk(s, w, i);
    }
  }

  lemma MembersAfter(s: State, w: map<Item, Place>, s': State, w': map<Item, Place>, c: Change, p: PoolId)
    requires forall i {:trigger CountedFor(s', w', p, i)} ::
               Changed(CountedFor(s, w, p, i), c, p, i, CountedFor(s', w', p, i))
    ensures |Members(s', w', p)| == |Members(s, w, p)| + Difference(c, p)
  {
    var before, after := Members(s, w, p), Members(s', w', p);
    forall i ensures Changed(i in before, c, p, i, i in after) {
      assert CountedFor(s', w', p, i) == (i in after);
      assert CountedFor(s, w, p, i) == (i in before);
    }
    ShiftedSize(before, after, c, p);
  }

  lemma ShiftedSize(before: set<Item>, after: set<Item>, c: Change, p: PoolId)
    requires forall i :: Changed(i in before, c, p, i, i in after)
    ensures |after| == |before| + Difference(c, p)
  {
    if c.Plus? && c.p == p {
      assert Changed(c.i in before, c, p, c.i, c.i in after);
      assert after == before + {c.i};
    } else if c.Minus? && c.p == p {
      assert Changed(c.i in before, c, p, c.i, c.i in after);
      assert before == after + {c.i};
    } else {
      assert after == before;
    }
  }

  lemma OneIsCounted(s: State, w: map<Item, Place>, e: Event, s': State, w': map<Item, Place>, p: PoolId)
    requires Located(s, w) && Counted(s, w) && Enabled(s, e) && s' == Step(s, e) && w' == Moved(s, w, e)
    requires p in s'.lists
    ensures p in s'.attached && s'.attached[p] == |Members(s', w', p)| - s'.failures[p]
  {
    CounterAfter(s, w, e, s', p);
    forall i ensures Changed(CountedFor(s, w, p, i), ChangeOf(s, e), p, i, CountedFor(s', w', p, i)) {
      StepCounts(s, w, e, s', w', p, i);
    }
    MembersAfter(s, w, s', w', ChangeOf(s, e), p);
    if p in s.lists {
      assert s.attached[p] == |Members(s, w, p)| - s.failures[p];
    } else {
      NewPoolCountsNothing(s, w, p);
      assert s.failures[p] == 0;
    }
  }

  /** Counters are right after every step. */
  lemma StepIsCounted(s: State, w: map<Item, Place>, e: Event, s': State, w': map<Item, Place>)
    requires Located(s, w) && Counted(s, w) && Enabled(s, e) && s' == Step(s, e) && w' == Moved(s, w, e)
    ensures Counted(s', w')
  {
    FailuresAfter(s, w, e, s');
    forall p | p in s'.lists ensures p in s'.attached && s'.attached[p] == |Members(s', w', p)| - s'.failures[p] {
      OneIsCounted(s, w, e, s', w', p);
    }
  }
}
