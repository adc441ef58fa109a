/** What holds of the pool in every state that some interleaving reaches. */
module PoolTheorems {
  import opened Basics
  import opened PoolProtocol
  import opened PoolPlaces
  import opened PoolCounting

  function Initial(threads: nat): State {
    State(0, 0, map[], map[], map[], map[], seq(threads, _ => Idle), multiset{})
  }

  function Run(s: State, events: seq<Event>): State
    requires ValidRun(s, events)
    decreases |events|
  {
    if events == [] then s else Run(Step(s, events[0]), events[1..])
  }

  predicate ValidRun(s: State, events: seq<Event>)
    decreases |events|
  {
    events == [] || (Enabled(s, events[0]) && ValidRun(Step(s, events[0]), events[1..]))
  }

  lemma {:induction false} RunCons(s: State, e: Event, es: seq<Event>)
    requires Enabled(s, e) && ValidRun(Step(s, e), es)
    ensures ValidRun(s, [e] + es) && Run(s, [e] + es) == Run(Step(s, e), es)
  {
    assert ([e] + es)[1..] == es;
  }

  predicate Reachable(threads: nat, events: seq<Event>, s: State) {
    ValidRun(Initial(threads), events) && s == Run(Initial(threads), events)
  }

  function PlacesAfter(s: State, w: map<Item, Place>, events: seq<Event>): map<Item, Place>
    requires ValidRun(s, events)
    decreases |events|
  {
    if events == [] then w else PlacesAfter(Step(s, events[0]), Moved(s, w, events[0]), events[1..])
  }

  lemma {:induction false} RunIsLocated(s: State, w: map<Item, Place>, events: seq<Event>)
    requires Located(s, w) && Counted(s, w) && ValidRun(s, events)
    ensures Located(Run(s, events), PlacesAfter(s, w, events))
    ensures Counted(Run(s, events), PlacesAfter(s, w, events))
    decreases |events|
  {
    if events != [] {
      var e := events[0];
      StepIsLocated(s, w, e);
      StepIsCounted(s, w, e, Step(s, e), Moved(s, w, e));
      RunIsLocated(Step(s, e), Moved(s, w, e), events[1..]);
    }
  }

  lemma ReachableIsLocated(threads: nat, events: seq<Event>, s: State) returns (w: map<Item, Place>)
    requires Reachable(threads, events, s)
    ensures Located(s, w) && Counted(s, w)
  {
    RunIsLocated(Initial(threads), map[], events);
    w := PlacesAfter(Initial(threads), map[], events);
  }

  // ---------- conservation ----------

  /** The places of an item, each read off the state. */
  datatype Spot = Pooled(p: PoolId, index: nat) | Borrowed | InTransit(t: Thread) | Destroyed

  predicate IsAt(s: State, spot: Spot, i: Item) {
    match spot
    case Pooled(p, k) => p in s.lists && k < |s.lists[p]| && s.lists[p][k] == i
    case Borrowed => i in s.handles && s.handles[i] >= 1
    case InTransit(t) => t < |s.pcs| && i in Carried(s.pcs[t])
    case Destroyed => i !in s.deleter
  }

  lemma SpotOf(s: State, w: map<Item, Place>, i: Item) returns (spot: Spot)
    requires Located(s, w)
    ensures IsAt(s, spot, i)
    ensures spot.Destroyed? <==> i !in w
    ensures i in w ==> (w[i].In? <==> spot.Pooled?) && (w[i].Lent? <==> spot.Borrowed?)
    ensures spot.Pooled? ==> w[i].p == spot.p
    ensures spot.InTransit? ==> w[i] == With(spot.t)
  {
    if i !in w {
      return Destroyed;
    }
    assert ItemOk(s, w, i);
    match w[i]
    case In(p) =>
      var k :| 0 <= k < |s.lists[p]| && s.lists[p][k] == i;
      spot := Pooled(p, k);
    case Lent(_) =>
      assert HandleOk(s, w, i);
      spot := Borrowed;
    case With(t) => spot := InTransit(t);
  }

  lemma OnlySpot(s: State, w: map<Item, Place>, i: Item, spot: Spot, other: Spot)
    requires Located(s, w) && IsAt(s, spot, i) && IsAt(s, other, i)
    ensures spot == other
  {
    SpotIsPlace(s, w, i, spot);
    SpotIsPlace(s, w, i, other);
    if spot.Pooled? && other.Pooled? {
      assert ListOk(s, w, spot.p);
    }
  }

  lemma SpotIsPlace(s: State, w: map<Item, Place>, i: Item, spot: Spot)
    requires Located(s, w) && IsAt(s, spot, i)
    ensures spot.Destroyed? <==> i !in w
    ensures spot.Pooled? ==> w[i] == In(spot.p)
    ensures spot.Borrowed? ==> w[i].Lent?
    ensures spot.InTransit? ==> w[i] == With(spot.t)
  {
    match spot
    case Pooled(p, k) => assert ListOk(s, w, p);
    case Borrowed => assert HandleOk(s, w, i);
    case InTransit(t) => assert ThreadOk(s, w, t);
    case Destroyed =>
  }

  /**
    Conservation. Under every interleaving each item that was created is at exactly one place: at one
    position of one pool, borrowed, carried by one thread, or destroyed. Pooled items name no pool.
   */
  lemma EveryItemIsInOnePlace(threads: nat, events: seq<Event>, s: State, i: Item)
    requires Reachable(threads, events, s)
    ensures exists spot {:trigger IsAt(s, spot, i)} ::
              IsAt(s, spot, i) && forall other :: IsAt(s, other, i) ==> other == spot
    ensures (exists p, k :: IsAt(s, Pooled(p, k), i)) ==> i in s.deleter && s.deleter[i] == None
    ensures s.made <= i ==> IsAt(s, Destroyed, i)
  {
    var w := ReachableIsLocated(threads, events, s);
    var spot := SpotOf(s, w, i);
    forall other | IsAt(s, other, i) ensures other == spot {
      OnlySpot(s, w, i, spot, other);
    }
    if i in w {
      assert ItemOk(s, w, i);
    }
    forall p, k | IsAt(s, Pooled(p, k), i) ensures i in s.deleter && s.deleter[i] == None {
      SpotIsPlace(s, w, i, Pooled(p, k));
    }
  }

  // ---------- the counter ----------

  /** The thread is between the change of a deleter and the change of the counter that goes with it. */
  predicate Between(pc: Pc, i: Item) {
    (i in Carried(pc) || Working(pc) == Some(i)) && !StillCounts(pc)
  }

  predicate InFlight(s: State, i: Item) {
    exists t :: 0 <= t < |s.pcs| && Between(s.pcs[t], i)
  }

  /** The items whose deleter names the pool. */
  function Named(s: State, p: PoolId): set<Item> {
    set i | i in s.deleter && s.deleter[i] == Some(p)
  }

  lemma CountedUnlessInFlight(s: State, w: map<Item, Place>, p: PoolId, i: Item)
    requires Located(s, w) && i in Named(s, p)
    ensures CountedFor(s, w, p, i) <==> !InFlight(s, i)
  {
    assert ItemOk(s, w, i);
    forall t | 0 <= t < |s.pcs| && Between(s.pcs[t], i) ensures w[i] == With(t) || w[i] == Lent(Some(t)) {
      assert ThreadOk(s, w, t);
    }
    match w[i]
    case In(_) =>
    case Lent(u) => assert u.Some? && !StillCounts(s.pcs[u.value]) ==> Between(s.pcs[u.value], i);
    case With(t) => assert !StillCounts(s.pcs[t]) ==> Between(s.pcs[t], i);
  }

  /**
    At every point `attached()` is the number of items whose deleter names the pool, without those in
    flight, less the number of failed allocations.
   */
  lemma AttachedIsExact(threads: nat, events: seq<Event>, s: State, p: PoolId)
    requires Reachable(threads, events, s) && p in s.lists
    ensures p in s.attached && s.attached[p] == |set i | i in Named(s, p) && !InFlight(s, i)| - s.failures[p]
  {
    var w := ReachableIsLocated(threads, events, s);
    forall i | i in Named(s, p) ensures CountedFor(s, w, p, i) <==> !InFlight(s, i) {
      CountedUnlessInFlight(s, w, p, i);
    }
    assert Members(s, w, p) == set i | i in Named(s, p) && !InFlight(s, i);
  }

  /**
    When no thread is in the middle of an operation, it is the number of borrowed items of the pool,
    exactly when no `shared_ptr` could not be allocated.
   */
  lemma AttachedAtRest(threads: nat, events: seq<Event>, s: State, p: PoolId)
    requires Reachable(threads, events, s) && p in s.lists
    requires forall t :: 0 <= t < |s.pcs| ==> s.pcs[t].Idle?
    ensures p in s.attached
    ensures var borrowed := set i | i in s.handles && i in s.deleter && s.deleter[i] == Some(p);
            s.attached[p] == |borrowed| - s.failures[p] && (s.attached[p] == |borrowed| <==> s.failures[p] == 0)
  {
    var w := ReachableIsLocated(threads, events, s);
    forall i | i in Named(s, p) ensures i in s.handles && !InFlight(s, i) {
      assert ItemOk(s, w, i);
    }
    AttachedIsExact(threads, events, s, p);
    assert Named(s, p) == set i | i in s.handles && i in s.deleter && s.deleter[i] == Some(p);
    assert Named(s, p) == set i | i in Named(s, p) && !InFlight(s, i);
  }

  /**
    The counter, of an unsigned type, is never decremented at zero when no allocation has failed; with
    failures it is exactly when there are at least as many of them as items that count.
   */
  lemma NeverBelowZero(threads: nat, events: seq<Event>, s: State, t: Thread)
    requires Reachable(threads, events, s) && t < |s.pcs|
    requires s.pcs[t].DropUncount? || s.pcs[t].AttachUncount?
    ensures s.pcs[t].p in s.attached
    ensures s.failures[s.pcs[t].p] == 0 ==> s.attached[s.pcs[t].p] >= 1
    ensures var p := s.pcs[t].p;
            s.attached[p] >= 1 <==> s.failures[p] < |set i | i in Named(s, p) && !InFlight(s, i)|
  {
    var w := ReachableIsLocated(threads, events, s);
    var p := s.pcs[t].p;
    assert ThreadOk(s, w, t);
    assert s.pcs[t].i in Members(s, w, p);
    assert s.attached[p] == |Members(s, w, p)| - s.failures[p];
    AttachedIsExact(threads, events, s, p);
  }

  /** A thread on its way to a failed allocation, and what comes after it. */
  function Failing(pc: Pc, attached: int, made: nat, failures: multiset<PoolId>): State {
    State(made, 1, map[0 := []], map[0 := attached], if made == 0 then map[] else map[0 := Some(0)], map[], [pc],
          failures)
  }

  /** One failed allocation, in a pool without items: the counter goes below zero. */
  lemma FailedAllocationUncounts() returns (events: seq<Event>, s: State)
    ensures Reachable(1, events, s)
    ensures 0 in s.lists && s.attached == map[0 := -1] && s.pcs == [DropCheck(0, 0)]
  {
    events, s := FailedDrop();
    assert Step(Initial(1), NewPool) == Failing(Idle, 0, 0, multiset{});
    assert Step(Failing(Idle, 0, 0, multiset{}), StartCreate(0, 0)) == Failing(CreateMake(0), 0, 0, multiset{});
    RunCons(Failing(Idle, 0, 0, multiset{}), StartCreate(0, 0), events);
    events := [StartCreate(0, 0)] + events;
    RunCons(Initial(1), NewPool, events);
    events := [NewPool] + events;
  }

  lemma FailedDrop() returns (events: seq<Event>, s: State)
    ensures s == Failing(DropCheck(0, 0), -1, 1, multiset{0})
    ensures ValidRun(Failing(CreateMake(0), 0, 0, multiset{}), events)
    ensures Run(Failing(CreateMake(0), 0, 0, multiset{}), events) == s
  {
    var s1 := Failing(CreateMake(0), 0, 0, multiset{});
    var s2 := Failing(DropLock(0), 0, 1, multiset{0});
    var s3 := Failing(DropUncount(0, 0), 0, 1, multiset{0});
    s := Failing(DropCheck(0, 0), -1, 1, multiset{0});
    assert Step(s1, FailAllocation(0)) == s2;
    assert Step(s2, Advance(0, true)) == s3;
    assert Step(s3, Advance(0, true)) == s;
    RunCons(s3, Advance(0, true), []);
    RunCons(s2, Advance(0, true), [Advance(0, true)] + []);
    events := [Advance(0, true)] + ([Advance(0, true)] + []);
    RunCons(s1, FailAllocation(0), events);
    events := [FailAllocation(0)] + events;
  }

  // ---------- items in flight are few ----------

  /** The item a thread is in the middle of, if its deleter may name a pool. */
  function ItemOf(pc: Pc): Option<Item> {
    if pc.Idle? || pc.GetPull? || pc.CreateMake? || pc.EraseDelete? then None else Some(pc.i)
  }

  /** The items of the first `n` threads. */
  function ItemsOf(pcs: seq<Pc>, n: nat): set<Item>
    requires n <= |pcs|
  {
    if n == 0 then {}
    else if ItemOf(pcs[n - 1]).None? then ItemsOf(pcs, n - 1) else ItemsOf(pcs, n - 1) + {ItemOf(pcs[n - 1]).value}
  }

  /** How many of the first `n` threads are in an operation. */
  function Busy(pcs: seq<Pc>, n: nat): nat
    requires n <= |pcs|
  {
    if n == 0 then 0 else Busy(pcs, n - 1) + if pcs[n - 1].Idle? then 0 else 1
  }

  lemma {:induction false} FewItems(pcs: seq<Pc>, n: nat)
    requires n <= |pcs|
    ensures |ItemsOf(pcs, n)| <= Busy(pcs, n)
  {
    if n > 0 {
      FewItems(pcs, n - 1);
    }
  }

  lemma {:induction false} HasItem(pcs: seq<Pc>, n: nat, t: nat)
    requires t < n <= |pcs| && ItemOf(pcs[t]).Some?
    ensures ItemOf(pcs[t]).value in ItemsOf(pcs, n)
  {
    if t < n - 1 {
      HasItem(pcs, n - 1, t);
    }
  }

  lemma FlyingIsCarried(s: State, w: map<Item, Place>, p: PoolId, i: Item)
    requires Located(s, w) && i in Named(s, p) && InFlight(s, i)
    ensures i in ItemsOf(s.pcs, |s.pcs|)
  {
    var t :| 0 <= t < |s.pcs| && Between(s.pcs[t], i);
    assert ThreadOk(s, w, t);
    HasItem(s.pcs, |s.pcs|, t);
  }

  /** The counter lags behind the deleters by at most one item for each thread that is in an operation. */
  lemma AttachedLagsLittle(threads: nat, events: seq<Event>, s: State, p: PoolId)
    requires Reachable(threads, events, s) && p in s.lists
    ensures p in s.attached
    ensures 0 <= s.attached[p] + s.failures[p] <= |Named(s, p)| <= s.attached[p] + s.failures[p] + Busy(s.pcs, |s.pcs|)
  {
    var w := ReachableIsLocated(threads, events, s);
    AttachedIsExact(threads, events, s, p);
    var counted := set i | i in Named(s, p) && !InFlight(s, i);
    var flying := set i | i in Named(s, p) && InFlight(s, i);
    assert Named(s, p) == counted + flying;
    forall i | i in flying ensures i in ItemsOf(s.pcs, |s.pcs|) {
      FlyingIsCarried(s, w, p, i);
    }
    FewItems(s.pcs, |s.pcs|);
    SubsetSize(flying, ItemsOf(s.pcs, |s.pcs|));
    SubsetSize(counted, Named(s, p));
  }

  lemma SubsetSize(a: set<Item>, b: set<Item>)
    requires a <= b
    ensures |a| <= |b|
  {
    assert b == a + (b - a);
  }

  // ---------- borrowing ----------

  lemma AdvanceBorrows(s: State, w: map<Item, Place>, t: Thread, ok: bool, i: Item)
    requires Located(s, w) && t < |s.pcs| && !s.pcs[t].Idle?
    ensures i in s.handles ==> i in Advanced(s, t, ok).handles && Advanced(s, t, ok).handles[i] == s.handles[i]
    ensures i in Advanced(s, t, ok).handles && i !in s.handles ==>
              IsAt(s, InTransit(t), i) && Advanced(s, t, ok).handles[i] == 1
  {
    assert ThreadOk(s, w, t);
    if i in s.handles {
      assert HandleOk(s, w, i);
    }
  }

  /**
    An item that gets a borrower had none, and no thread but the one that hands it out could reach it;
    and an item with a borrower is neither handed out again nor destroyed until its last handle is dropped.
   */
  lemma OneBorrower(threads: nat, events: seq<Event>, s: State, e: Event, i: Item, s': State)
    requires Reachable(threads, events, s) && Enabled(s, e) && s' == Step(s, e)
    ensures i in s'.handles && i !in s.handles ==>
              e.Advance? && IsAt(s, InTransit(e.t), i) && s'.handles[i] == 1
    ensures i in s.handles && i !in s'.handles ==> e.Release? && e.i == i && s.handles[i] == 1
    ensures i in s.handles && i in s'.handles && s'.handles[i] != s.handles[i] ==>
              (e.Copy? || e.Release?) && e.i == i
  {
    var w := ReachableIsLocated(threads, events, s);
    if e.Advance? {
      AdvanceBorrows(s, w, e.t, e.ok, i);
    } else if i in s.handles {
      assert HandleOk(s, w, i);
    }
  }

  // ---------- the number of handles ----------

  /** The step hands the item out: `get` or `create` returns a `shared_ptr` of it. */
  predicate HandsOut(s: State, e: Event, i: Item) {
    e.Advance? && e.t < |s.pcs|
    && match s.pcs[e.t]
       case GetCount(_, j) => j == i
       case CreateCount(_, j) => j == i
       case _ => false
  }

  /** The handles of an item that users have got and copied, without those that they have released. */
  function HandlesOver(s: State, events: seq<Event>, i: Item): int
    requires ValidRun(s, events)
    decreases |events|
  {
    if events == [] then 0
    else
      var e := events[0];
      (if HandsOut(s, e, i) || e == Copy(i) then 1 else if e.Release? && e.i == i then -1 else 0)
      + HandlesOver(Step(s, e), events[1..], i)
  }

  function HandlesOf(s: State, i: Item): nat { if i in s.handles then s.handles[i] else 0 }

  lemma AdvanceHandles(s: State, w: map<Item, Place>, t: Thread, ok: bool, i: Item)
    requires Located(s, w) && t < |s.pcs| && !s.pcs[t].Idle?
    ensures HandlesOf(Advanced(s, t, ok), i)
         == HandlesOf(s, i) + (if HandsOut(s, Advance(t, ok), i) then 1 else 0)
  {
    assert ThreadOk(s, w, t);
    if i in s.handles {
      assert HandleOk(s, w, i);
    }
  }

  lemma {:induction false} StepHandles(s: State, w: map<Item, Place>, e: Event, i: Item)
    requires Located(s, w) && Enabled(s, e)
    ensures HandlesOf(Step(s, e), i) == HandlesOf(s, i) + HandlesOver(s, [e], i)
  {
    assert HandlesOver(Step(s, e), [e][1..], i) == 0;
    if e.Advance? {
      AdvanceHandles(s, w, e.t, e.ok, i);
    } else if i in s.handles {
      assert HandleOk(s, w, i);
    }
  }

  lemma {:induction false} RunHandles(s: State, w: map<Item, Place>, events: seq<Event>, i: Item)
    requires Located(s, w) && ValidRun(s, events)
    ensures HandlesOf(Run(s, events), i) == HandlesOf(s, i) + HandlesOver(s, events, i)
    decreases |events|
  {
    if events != [] {
      var e := events[0];
      StepHandles(s, w, e, i);
      StepIsLocated(s, w, e);
      assert HandlesOver(s, [e], i) + HandlesOver(Step(s, e), events[1..], i) == HandlesOver(s, events, i) by {
        assert [e][1..] == [];
      }
      RunHandles(Step(s, e), Moved(s, w, e), events[1..], i);
    }
  }

  /**
    An item is borrowed exactly while more handles of it were handed out and copied than were
    released, and the number of its handles is the difference. So it goes back only when every one of
    them was released.
   */
  lemma {:induction false} HandlesAreCounted(threads: nat, events: seq<Event>, s: State, i: Item)
    requires Reachable(threads, events, s)
    ensures HandlesOver(Initial(threads), events, i) >= 0
    ensures i in s.handles <==> HandlesOver(Initial(threads), events, i) > 0
    ensures i in s.handles ==> s.handles[i] == HandlesOver(Initial(threads), events, i)
  {
    InitialIsLocated(threads);
    RunHandles(Initial(threads), map[], events, i);
    var w := ReachableIsLocated(threads, events, s);
    if i in s.handles {
      assert HandleOk(s, w, i);
    }
  }

  lemma InitialIsLocated(threads: nat)
    ensures Located(Initial(threads), map[])
  {
  }

  lemma AdvanceRevivesNothing(s: State, w: map<Item, Place>, t: Thread, ok: bool, i: Item)
    requires Located(s, w) && t < |s.pcs| && !s.pcs[t].Idle? && i < s.made && i !in s.deleter
    ensures i !in Advanced(s, t, ok).deleter && i < Advanced(s, t, ok).made
  {
    assert ThreadOk(s, w, t);
    if Working(s.pcs[t]).Some? {
      assert ItemOk(s, w, Working(s.pcs[t]).value);
    }
  }

  /** An item that is destroyed stays so: its number is not given again, and nothing brings it back. */
  lemma DestroyedForGood(threads: nat, events: seq<Event>, s: State, e: Event, i: Item, s': State)
    requires Reachable(threads, events, s) && Enabled(s, e) && s' == Step(s, e)
    requires i < s.made && IsAt(s, Destroyed, i)
    ensures IsAt(s', Destroyed, i) && i < s'.made
  {
    var w := ReachableIsLocated(threads, events, s);
    if e.Advance? {
      AdvanceRevivesNothing(s, w, e.t, e.ok, i);
    }
  }
}
