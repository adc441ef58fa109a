/** A thread that is not interrupted does in each of its operations what the sequential one does. */
module PoolAlone {
  import opened Basics
  import opened PoolProtocol
  import opened Pool
  import T = PoolTheorems

  /** The deleters as one pool sees them: whether they name it. */
  function Names(s: State, p: PoolId): map<nat, bool> {
    map i | i in s.deleter :: s.deleter[i] == Some(p)
  }

  lemma NamesWithout(s: State, p: PoolId, gone: set<nat>)
    ensures Names(s.(deleter := Without(s.deleter, gone)), p) == Without(Names(s, p), gone)
  {
  }

  /** `get` has ended with the result `r`. */
  predicate Ended(s: State, t: Thread, p: PoolId, attached: int, r: Option<nat>) {
    && t < |s.pcs| && s.pcs[t].Idle? && p in s.lists
    && p in s.attached && s.attached[p] == attached + (if r.Some? then 1 else 0)
    && (r.Some? ==> r.value in s.handles && s.handles[r.value] == 1)
  }

  predicate Calling(s: State, t: Thread, p: PoolId) {
    t < |s.pcs| && s.pcs[t] == GetPull(p) && p in s.lists && p in s.attached
  }

  function Made(s: State, makes: bool): Option<nat> {
    if makes then Some(s.made) else None
  }

  /** `v_is_valid` holds of exactly the items in `valid`, and `v_create` throws unless `makes`. */
  predicate Truthful(s: State, e: Event, valid: set<Item>, makes: bool) {
    e.Advance? && e.t < |s.pcs| ==>
      match s.pcs[e.t]
      case GetCheck(_, i) => e.ok == (i in valid)
      case DropCheck(_, i) => e.ok == (i in valid)
      case CreateMake(_) => e.ok == makes
      case _ => true
  }

  /** Only the thread `t` takes steps. */
  predicate Alone(s: State, t: Thread, events: seq<Event>, valid: set<Item>, makes: bool)
    decreases |events|
  {
    && T.ValidRun(s, events)
    && (events == [] || (
          && events[0].Advance? && events[0].t == t && Truthful(s, events[0], valid, makes)
          && Alone(Step(s, events[0]), t, events[1..], valid, makes)))
  }

  /** The thread takes one more step. */
  lemma {:induction false} OneMore(s: State, t: Thread, ok: bool, valid: set<Item>, makes: bool, more: seq<Event>)
    returns (events: seq<Event>)
    requires t < |s.pcs| && !s.pcs[t].Idle? && Truthful(s, Advance(t, ok), valid, makes)
    requires Alone(Step(s, Advance(t, ok)), t, more, valid, makes)
    ensures Alone(s, t, events, valid, makes) && T.Run(s, events) == T.Run(Step(s, Advance(t, ok)), more)
  {
    T.RunCons(s, Advance(t, ok), more);
    events := [Advance(t, ok)] + more;
    assert events[1..] == more;
  }

  /** The newest item, with what a thread does after it was pulled and found valid. */
  function Taken(s: State, t: Thread, p: PoolId): (r: State)
    requires Calling(s, t, p) && s.lists[p] != []
  {
    var last := |s.lists[p]| - 1;
    var i := s.lists[p][last];
    s.(pcs := s.pcs[t := Idle], lists := s.lists[p := s.lists[p][..last]],
       deleter := s.deleter[i := Some(p)], attached := Bump(s.attached, p, 1), handles := s.handles[i := 1])
  }

  lemma TakeSteps(s: State, t: Thread, p: PoolId, valid: set<Item>, makes: bool) returns (events: seq<Event>)
    requires Calling(s, t, p) && s.lists[p] != [] && s.lists[p][|s.lists[p]| - 1] in valid
    ensures Alone(s, t, events, valid, makes) && T.Run(s, events) == Taken(s, t, p)
  {
    var e := Advance(t, true);
    var s1 := Step(s, e);
    var s2 := Step(s1, e);
    var s3 := Step(s2, e);
    assert s3.pcs[t := Idle] == s.pcs[t := Idle];
    assert Step(s3, e) == Taken(s, t, p);
    events := OneMore(s3, t, true, valid, makes, []);
    events := OneMore(s2, t, true, valid, makes, events);
    events := OneMore(s1, t, true, valid, makes, events);
    events := OneMore(s, t, true, valid, makes, events);
  }

  /** The newest item, with what a thread does after it was pulled and found invalid. */
  function Discarded(s: State, t: Thread, p: PoolId): (r: State)
    requires Calling(s, t, p) && s.lists[p] != []
    ensures Calling(r, t, p)
  {
    var last := |s.lists[p]| - 1;
    s.(lists := s.lists[p := s.lists[p][..last]], deleter := Without(s.deleter, {s.lists[p][last]}))
  }

  lemma DiscardSteps(s: State, t: Thread, p: PoolId, valid: set<Item>, makes: bool, more: seq<Event>)
    returns (events: seq<Event>)
    requires Calling(s, t, p) && s.lists[p] != [] && s.lists[p][|s.lists[p]| - 1] !in valid
    requires Alone(Discarded(s, t, p), t, more, valid, makes)
    ensures Alone(s, t, events, valid, makes) && T.Run(s, events) == T.Run(Discarded(s, t, p), more)
  {
    var s1 := Step(s, Advance(t, true));
    assert Step(s1, Advance(t, false)).pcs == s.pcs;
    assert Step(s1, Advance(t, false)) == Discarded(s, t, p);
    events := OneMore(s1, t, false, valid, makes, more);
    events := OneMore(s, t, true, valid, makes, events);
  }

  /** Nothing is left, and a new item is made, unless `v_create` throws. */
  function Created(s: State, t: Thread, p: PoolId, makes: bool): (r: State)
    requires t < |s.pcs|
  {
    if makes then
      s.(pcs := s.pcs[t := Idle], made := s.made + 1, deleter := s.deleter[s.made := Some(p)],
         attached := Bump(s.attached, p, 1), handles := s.handles[s.made := 1])
    else s.(pcs := s.pcs[t := Idle])
  }

  lemma CreateSteps(s: State, t: Thread, p: PoolId, valid: set<Item>, makes: bool) returns (events: seq<Event>)
    requires Calling(s, t, p) && s.lists[p] == []
    ensures Alone(s, t, events, valid, makes) && T.Run(s, events) == Created(s, t, p, makes)
  {
    var s1 := Step(s, Advance(t, true));
    var s2 := Step(s1, Advance(t, makes));
    if makes {
      assert s2.pcs[t := Idle] == s.pcs[t := Idle];
      assert Step(s2, Advance(t, true)) == Created(s, t, p, makes);
      events := OneMore(s2, t, true, valid, makes, []);
    } else {
      assert s2.pcs == s.pcs[t := Idle];
      events := [];
    }
    events := OneMore(s1, t, makes, valid, makes, events);
    events := OneMore(s, t, true, valid, makes, events);
  }

  /** The list is empty: what `create` makes is the result. */
  lemma EmptyAlone(list: seq<nat>, before: map<nat, bool>, s: State, t: Thread, p: PoolId, valid: set<nat>,
      makes: bool) returns (events: seq<Event>)
    requires Calling(s, t, p) && s.lists[p] == [] && Dropped(list, 0, valid, [], before, Names(s, p))
    ensures Alone(s, t, events, valid, makes)
    ensures Ended(T.Run(s, events), t, p, s.attached[p], Made(s, makes))
    ensures Got(list, valid, Made(s, makes), before, T.Run(s, events).lists[p], Made(s, makes),
                Names(T.Run(s, events), p))
  {
    events := CreateSteps(s, t, p, valid, makes);
    assert Names(Created(s, t, p, makes), p) == if makes then Names(s, p)[s.made := true] else Names(s, p);
    FoundNone(list, valid, Made(s, makes), before, Names(s, p));
  }

  /** The newest item is valid: it is the result. */
  lemma TakeAlone(list: seq<nat>, before: map<nat, bool>, s: State, t: Thread, p: PoolId, valid: set<nat>,
      makes: bool, i: nat) returns (events: seq<Event>)
    requires Calling(s, t, p) && s.lists[p] != [] && s.lists[p][|s.lists[p]| - 1] == i && i in valid
    requires Dropped(list, |s.lists[p]|, valid, s.lists[p], before, Names(s, p))
    ensures Alone(s, t, events, valid, makes) && Ended(T.Run(s, events), t, p, s.attached[p], Some(i))
    ensures Got(list, valid, Made(s, makes), before, T.Run(s, events).lists[p], Some(i), Names(T.Run(s, events), p))
  {
    var n := |s.lists[p]|;
    events := TakeSteps(s, t, p, valid, makes);
    assert Names(Taken(s, t, p), p) == Names(s, p)[i := true];
    FoundNewest(list, n, valid, Made(s, makes), before, s.lists[p][..n - 1], Names(s, p));
  }

  /** The newest item is not valid: the loop goes on without it. */
  lemma DiscardedIsDropped(list: seq<nat>, before: map<nat, bool>, s: State, t: Thread, p: PoolId, valid: set<nat>)
    requires Calling(s, t, p) && s.lists[p] != [] && s.lists[p][|s.lists[p]| - 1] !in valid
    requires Dropped(list, |s.lists[p]|, valid, s.lists[p], before, Names(s, p))
    ensures var next := Discarded(s, t, p);
            Dropped(list, |next.lists[p]|, valid, next.lists[p], before, Names(next, p))
  {
    var n, next := |s.lists[p]|, Discarded(s, t, p);
    DropOne(list, n - 1, valid, s.lists[p], next.lists[p], before, Names(s, p));
    assert Names(next, p) == Without(Names(s, p), {list[n - 1]});
  }

  /**
    From any state of the loop on, `list` and `before` being the list and the deleters when `get` was
    called: the thread alone gets to the end, with the result of the sequential `get`.
   */
  lemma {:induction false} LoopAlone(list: seq<nat>, before: map<nat, bool>, s: State, t: Thread,
      p: PoolId, valid: set<nat>, makes: bool) returns (events: seq<Event>, r: Option<nat>)
    requires Calling(s, t, p) && Dropped(list, |s.lists[p]|, valid, s.lists[p], before, Names(s, p))
    ensures Alone(s, t, events, valid, makes) && Ended(T.Run(s, events), t, p, s.attached[p], r)
    ensures Got(list, valid, Made(s, makes), before, T.Run(s, events).lists[p], r, Names(T.Run(s, events), p))
    decreases |s.lists[p]|
  {
    if s.lists[p] == [] {
      r := Made(s, makes);
      events := EmptyAlone(list, before, s, t, p, valid, makes);
    } else if s.lists[p][|s.lists[p]| - 1] in valid {
      r := Some(s.lists[p][|s.lists[p]| - 1]);
      events := TakeAlone(list, before, s, t, p, valid, makes, r.value);
    } else {
      DiscardedIsDropped(list, before, s, t, p, valid);
      var more;
      more, r := LoopAlone(list, before, Discarded(s, t, p), t, p, valid, makes);
      events := DiscardSteps(s, t, p, valid, makes, more);
    }
  }

  /** The concurrent `get` refines the sequential one. */
  lemma GetAlone(s: State, t: Thread, p: PoolId, valid: set<nat>, makes: bool)
    returns (events: seq<Event>, r: Option<nat>)
    requires Calling(s, t, p)
    ensures Alone(s, t, events, valid, makes) && Ended(T.Run(s, events), t, p, s.attached[p], r)
    ensures var end := T.Run(s, events);
            Got(s.lists[p], valid, Made(s, makes), Names(s, p), end.lists[p], r, Names(end, p))
  {
    var list := s.lists[p];
    assert Without(Names(s, p), Elements(list[|list|..])) == Names(s, p);
    events, r := LoopAlone(list, Names(s, p), s, t, p, valid, makes);
  }

  // ---------- the other operations ----------

  /** The operation is over, and has changed the counter. */
  predicate Over(s: State, t: Thread, p: PoolId, end: State, change: int)
    requires p in s.attached
  {
    && t < |end.pcs| && end.pcs[t].Idle? && p in end.lists
    && p in end.attached && end.attached[p] == s.attached[p] + change
  }

  predicate InPool(s: State, t: Thread, p: PoolId, i: Item) {
    t < |s.pcs| && p in s.lists && p in s.attached && i in s.deleter
  }

  /** The deleter has lowered the counter, and calls `push`. */
  lemma PushSteps(s: State, t: Thread, p: PoolId, i: Item, valid: set<Item>, makes: bool)
    returns (events: seq<Event>)
    requires InPool(s, t, p, i) && s.pcs[t] == DropCheck(p, i)
    ensures Alone(s, t, events, valid, makes) && Over(s, t, p, T.Run(s, events), 0)
    ensures var end := T.Run(s, events);
            && end.lists[p] == (if i in valid then s.lists[p] + [i] else s.lists[p])
            && Names(end, p) == if i in valid then Names(s, p)[i := false] else Without(Names(s, p), {i})
  {
    var s1 := Step(s, Advance(t, i in valid));
    if i in valid {
      events := OneMore(s1, t, true, valid, makes, []);
    } else {
      NamesWithout(s, p, {i});
      events := [];
    }
    events := OneMore(s, t, i in valid, valid, makes, events);
  }

  /** Dropping the last handle of an item that names this pool, or none that is alive. */
  lemma ReleaseAlone(s: State, t: Thread, p: PoolId, i: Item, valid: set<Item>, makes: bool)
    returns (events: seq<Event>, change: int)
    requires InPool(s, t, p, i) && s.pcs[t] == DropLock(i)
    requires s.deleter[i].Some? && s.deleter[i].value in s.lists ==> s.deleter[i] == Some(p)
    ensures Alone(s, t, events, valid, makes) && Over(s, t, p, T.Run(s, events), change)
    ensures var end := T.Run(s, events);
            Released(i, i in valid, s.lists[p], Names(s, p), end.lists[p], Names(end, p), change)
  {
    var s1 := Step(s, Advance(t, true));
    if s.deleter[i] == Some(p) {
      change := -1;
      events := PushSteps(Step(s1, Advance(t, true)), t, p, i, valid, makes);
      events := OneMore(s1, t, true, valid, makes, events);
    } else {
      change, events := 0, [];
    }
    events := OneMore(s, t, true, valid, makes, events);
  }

  /** The deleter is set, and the pool that it names, if any, is to count the item. */
  lemma CountSteps(s: State, t: Thread, p: PoolId, i: Item, valid: set<Item>, makes: bool)
    returns (events: seq<Event>)
    requires InPool(s, t, p, i) && s.pcs[t] == AttachRelock(i) && (s.deleter[i].Some? ==> s.deleter[i] == Some(p))
    ensures Alone(s, t, events, valid, makes)
    ensures Over(s, t, p, T.Run(s, events), if s.deleter[i].Some? then 1 else 0)
    ensures T.Run(s, events).lists == s.lists && T.Run(s, events).deleter == s.deleter
  {
    var s1 := Step(s, Advance(t, true));
    events := [];
    if s.deleter[i].Some? {
      events := OneMore(s1, t, true, valid, makes, events);
    }
    events := OneMore(s, t, true, valid, makes, events);
  }

  /** Attaching an item to this pool, or detaching it, whatever pool it names. */
  lemma AttachAlone(s: State, t: Thread, p: PoolId, i: Item, target: Option<PoolId>,
      valid: set<Item>, makes: bool)
    returns (events: seq<Event>, change: int)
    requires InPool(s, t, p, i) && s.pcs[t] == AttachLock(i, target) && (target.Some? ==> target == Some(p))
    ensures Alone(s, t, events, valid, makes) && Over(s, t, p, T.Run(s, events), change)
    ensures var end := T.Run(s, events);
            end.lists == s.lists && Renamed(i, target.Some?, Names(s, p), Names(end, p), change)
  {
    var s1 := Step(s, Advance(t, true));
    if s1.pcs[t].AttachUncount? {
      var s2 := Step(s1, Advance(t, true));
      events, change := AttachEnds(s2, t, p, i, target, valid, makes);
      events := OneMore(s1, t, true, valid, makes, events);
      change := change - if s.deleter[i] == Some(p) then 1 else 0;
    } else {
      events, change := AttachEnds(s1, t, p, i, target, valid, makes);
    }
    events := OneMore(s, t, true, valid, makes, events);
  }

  lemma AttachEnds(s: State, t: Thread, p: PoolId, i: Item, target: Option<PoolId>,
      valid: set<Item>, makes: bool)
    returns (events: seq<Event>, change: int)
    requires InPool(s, t, p, i) && s.pcs[t] == AttachSet(i, target) && (target.Some? ==> target == Some(p))
    ensures Alone(s, t, events, valid, makes) && Over(s, t, p, T.Run(s, events), change)
    ensures change == if target.Some? then 1 else 0
    ensures var end := T.Run(s, events);
            end.lists == s.lists && Names(end, p) == Names(s, p)[i := target.Some?]
  {
    var s1 := Step(s, Advance(t, true));
    events := CountSteps(s1, t, p, i, valid, makes);
    change := if target.Some? then 1 else 0;
    events := OneMore(s, t, true, valid, makes, events);
  }

  /** `erase_invalid`, with the items deleted after the mutex is released. */
  lemma EraseAlone(s: State, t: Thread, p: PoolId, valid: set<Item>) returns (end: State)
    requires p in s.lists && p in s.attached && Enabled(s, Erase(t, p, valid))
    ensures end == Step(Step(s, Erase(t, p, valid)), Advance(t, true)) && Over(s, t, p, end, 0)
    ensures Erased(valid, s.lists[p], Names(s, p), end.lists[p], Names(end, p))
  {
    end := Step(Step(s, Erase(t, p, valid)), Advance(t, true));
    NamesWithout(s, p, Elements(s.lists[p]) - valid);
  }
}
