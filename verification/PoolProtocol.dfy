/**
  The steps of `internal::pool` under any interleaving of threads. Every access to the list is under
  the mutex of the pool and hence one step; the counter and the deleters are accessed outside of it.
 */
module PoolProtocol {
  import opened Basics

  type Item = nat
  type PoolId = nat
  type Thread = nat

  /** Where a thread is, with the local variables that matter. */
  datatype Pc =
    | Idle
    // get()
    | GetPull(p: PoolId) | GetCheck(p: PoolId, i: Item) | GetAdopt(p: PoolId, i: Item) | GetCount(p: PoolId, i: Item)
    // create()
    | CreateMake(p: PoolId) | CreateCount(p: PoolId, i: Item)
    // deleter::operator()
    | DropLock(i: Item) | DropUncount(p: PoolId, i: Item) | DropCheck(p: PoolId, i: Item) | DropList(p: PoolId, i: Item)
    // attach(), detach()
    | AttachLock(i: Item, target: Option<PoolId>) | AttachUncount(i: Item, p: PoolId, target: Option<PoolId>)
    | AttachSet(i: Item, target: Option<PoolId>) | AttachRelock(i: Item) | AttachCount(i: Item, p: PoolId)
    // erase_invalid(), after the mutex is released
    | EraseDelete(doomed: set<Item>)

  /**
    Items are numbered in the order of their creation, and so are pools. A pool in `lists` is alive.
    `deleter` has the items that are not destroyed, with the pool that their deleter names;
    `handles` has those that users hold, with the number of `shared_ptr`; `failures` has a pool once
    for every call of its `create` in which the `shared_ptr` could not be allocated.
   */
  datatype State = State(
    made: nat, pools: nat,
    lists: map<PoolId, seq<Item>>, attached: map<PoolId, int>,
    deleter: map<Item, Option<PoolId>>, handles: map<Item, nat>,
    pcs: seq<Pc>, failures: multiset<PoolId>)

  datatype Event =
    | NewPool | PoolDies(p: PoolId)
    | StartGet(t: Thread, p: PoolId) | StartCreate(t: Thread, p: PoolId)
    | StartAttach(t: Thread, i: Item, target: Option<PoolId>)
    | Copy(i: Item) | Release(t: Thread, i: Item)
    | Erase(t: Thread, p: PoolId, valid: set<Item>)
    | Advance(t: Thread, ok: bool)
    | FailAllocation(t: Thread)

  /** The items that a thread alone can reach. */
  function Carried(pc: Pc): set<Item> {
    match pc
    case GetCheck(_, i) => {i}
    case GetAdopt(_, i) => {i}
    case GetCount(_, i) => {i}
    case CreateCount(_, i) => {i}
    case DropLock(i) => {i}
    case DropUncount(_, i) => {i}
    case DropCheck(_, i) => {i}
    case DropList(_, i) => {i}
    case EraseDelete(doomed) => doomed
    case _ => {}
  }

  /** The item that a thread attaches or detaches, which it also has a handle of. */
  function Working(pc: Pc): Option<Item> {
    match pc
    case AttachLock(i, _) => Some(i)
    case AttachUncount(i, _, _) => Some(i)
    case AttachSet(i, _) => Some(i)
    case AttachRelock(i) => Some(i)
    case AttachCount(i, _) => Some(i)
    case _ => None
  }

  /** The pool that a thread keeps alive by a `shared_ptr`, its own or its caller's. */
  function Using(pc: Pc): Option<PoolId> {
    match pc
    case GetPull(p) => Some(p)
    case GetCheck(p, _) => Some(p)
    case GetAdopt(p, _) => Some(p)
    case GetCount(p, _) => Some(p)
    case CreateMake(p) => Some(p)
    case CreateCount(p, _) => Some(p)
    case DropUncount(p, _) => Some(p)
    case DropCheck(p, _) => Some(p)
    case DropList(p, _) => Some(p)
    case AttachUncount(_, p, _) => Some(p)
    case AttachCount(_, p) => Some(p)
    case _ => None
  }

  // ---------- the steps ----------

  predicate Ready(s: State, t: Thread) {
    t < |s.pcs| && s.pcs[t].Idle?
  }

  /** Nobody attaches or detaches the item. */
  predicate Unworked(s: State, i: Item) {
    forall t :: 0 <= t < |s.pcs| ==> Working(s.pcs[t]) != Some(i)
  }

  /**
    What the users of a pool must respect: calls are made through a live pool; an item is attached by
    one thread at a time, which has a handle of it meanwhile.
   */
  predicate Enabled(s: State, e: Event) {
    match e
    case NewPool => true
    case PoolDies(p) => p in s.lists && forall t :: 0 <= t < |s.pcs| ==> Using(s.pcs[t]) != Some(p)
    case StartGet(t, p) => Ready(s, t) && p in s.lists
    case StartCreate(t, p) => Ready(s, t) && p in s.lists
    case StartAttach(t, i, target) =>
      Ready(s, t) && i in s.handles && Unworked(s, i) && (target.Some? ==> target.value < s.pools)
    case Copy(i) => i in s.handles
    case Release(t, i) => Ready(s, t) && i in s.handles && (s.handles[i] > 1 || Unworked(s, i))
    case Erase(t, p, _) => Ready(s, t) && p in s.lists
    case Advance(t, _) => t < |s.pcs| && !s.pcs[t].Idle?
    case FailAllocation(t) => t < |s.pcs| && s.pcs[t].CreateMake?
  }

  function Goto(s: State, t: Thread, pc: Pc): State
    requires t < |s.pcs|
  {
    s.(pcs := s.pcs[t := pc])
  }

  /** `m_pool.lock()` */
  function Lock(s: State, named: Option<PoolId>): Option<PoolId> {
    if named.Some? && named.value in s.lists then named else None
  }

  function Bump(attached: map<PoolId, int>, p: PoolId, change: int): map<PoolId, int> {
    if p in attached then attached[p := attached[p] + change] else attached
  }

  function Kept(list: seq<Item>, valid: set<Item>): seq<Item> {
    if list == [] then []
    else if list[0] in valid then [list[0]] + Kept(list[1..], valid) else Kept(list[1..], valid)
  }

  function Without<K, V>(m: map<K, V>, gone: set<K>): map<K, V> {
    map k | k in m && k !in gone :: m[k]
  }

  function Elements(list: seq<Item>): set<Item> {
    set i | i in list
  }

  /** A thread in the middle of an operation takes its next step. */
  function Advanced(s: State, t: Thread, ok: bool): (next: State)
    requires t < |s.pcs|
    ensures next.failures == s.failures && next.pools == s.pools
  {
    match s.pcs[t]
    case Idle => s
    case GetPull(p) =>
      if p !in s.lists || s.lists[p] == [] then Goto(s, t, CreateMake(p))
      else
        var last := |s.lists[p]| - 1;
        Goto(s, t, GetCheck(p, s.lists[p][last])).(lists := s.lists[p := s.lists[p][..last]])
    case GetCheck(p, i) =>
      if ok then Goto(s, t, GetAdopt(p, i))
      else Goto(s, t, GetPull(p)).(deleter := Without(s.deleter, {i}))
    case GetAdopt(p, i) => Goto(s, t, GetCount(p, i)).(deleter := s.deleter[i := Some(p)])
    case GetCount(p, i) => Goto(s, t, Idle).(attached := Bump(s.attached, p, 1), handles := s.handles[i := 1])
    case CreateMake(p) =>
      if ok then
        Goto(s, t, CreateCount(p, s.made)).(made := s.made + 1, deleter := s.deleter[s.made := Some(p)])
      else Goto(s, t, Idle)
    case CreateCount(p, i) => Goto(s, t, Idle).(attached := Bump(s.attached, p, 1), handles := s.handles[i := 1])
    case DropLock(i) =>
      (match Lock(s, if i in s.deleter then s.deleter[i] else None)
       case Some(p) => Goto(s, t, DropUncount(p, i))
       case None => Goto(s, t, Idle).(deleter := Without(s.deleter, {i})))
    case DropUncount(p, i) => Goto(s, t, DropCheck(p, i)).(attached := Bump(s.attached, p, -1))
    case DropCheck(p, i) =>
      if ok then Goto(s, t, DropList(p, i)) else Goto(s, t, Idle).(deleter := Without(s.deleter, {i}))
    case DropList(p, i) =>
      Goto(s, t, Idle).(deleter := s.deleter[i := None],
                        lists := if p in s.lists then s.lists[p := s.lists[p] + [i]] else s.lists)
    case AttachLock(i, target) =>
      (match Lock(s, if i in s.deleter then s.deleter[i] else None)
       case Some(p) => Goto(s, t, AttachUncount(i, p, target))
       case None => Goto(s, t, AttachSet(i, target)))
    case AttachUncount(i, p, target) => Goto(s, t, AttachSet(i, target)).(attached := Bump(s.attached, p, -1))
    case AttachSet(i, target) => Goto(s, t, AttachRelock(i)).(deleter := s.deleter[i := target])
    case AttachRelock(i) =>
      (match Lock(s, if i in s.deleter then s.deleter[i] else None)
       case Some(p) => Goto(s, t, AttachCount(i, p))
       case None => Goto(s, t, Idle))
    case AttachCount(i, p) => Goto(s, t, Idle).(attached := Bump(s.attached, p, 1))
    case EraseDelete(doomed) => Goto(s, t, Idle).(deleter := Without(s.deleter, doomed))
  }

  /** `create` has a new item, but the `shared_ptr` throws, and calls the deleter before it is counted. */
  function Unallocated(s: State, t: Thread, p: PoolId): State
    requires t < |s.pcs|
  {
    Goto(s, t, DropLock(s.made)).(made := s.made + 1, deleter := s.deleter[s.made := Some(p)],
                                  failures := s.failures + multiset{p})
  }

  function Step(s: State, e: Event): State
    requires Enabled(s, e)
  {
    match e
    case NewPool => s.(pools := s.pools + 1, lists := s.lists[s.pools := []], attached := s.attached[s.pools := 0])
    case PoolDies(p) =>
      s.(lists := Without(s.lists, {p}), attached := Without(s.attached, {p}),
         deleter := Without(s.deleter, Elements(s.lists[p])))
    case StartGet(t, p) => Goto(s, t, GetPull(p))
    case StartCreate(t, p) => Goto(s, t, CreateMake(p))
    case StartAttach(t, i, target) => Goto(s, t, AttachLock(i, target))
    case Copy(i) => s.(handles := s.handles[i := s.handles[i] + 1])
    case Release(t, i) =>
      if s.handles[i] > 1 then s.(handles := s.handles[i := s.handles[i] - 1])
      else Goto(s, t, DropLock(i)).(handles := Without(s.handles, {i}))
    case Erase(t, p, valid) =>
      Goto(s, t, EraseDelete(Elements(s.lists[p]) - valid)).(lists := s.lists[p := Kept(s.lists[p], valid)])
    case Advance(t, ok) => Advanced(s, t, ok)
    case FailAllocation(t) => Unallocated(s, t, s.pcs[t].p)
  }
}
