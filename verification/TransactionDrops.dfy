/** What is undone when handles are dropped, in any order, and when pipelines are finished. */
module TransactionDrops {
  import opened Basics
  import opened SavepointServer
  import opened Transactions
  import opened TransactionStack
  import opened TransactionOwners
  import opened TransactionRefinement
  import opened TransactionRuns
  import opened TransactionTheorems

  /** Giving up all newer transactions, and then this one, leads back to where it started. */
  lemma {:induction false} UnwindRestores(k: Stack, n: nat)
    requires Stacked(k.frames) && n < |k.frames| && !k.lost
    requires Starts(k.frames[n].kind) || k.frames[n].kind.Nested?
    ensures var u := k.Unwind(|k.frames| - n, false);
            && u.View() == Origin(k.frames[n], k.committed) && u.committed == k.committed
            && !u.lost && (u.InTransaction() ==> !u.failed)
    decreases |k.frames|
  {
    var shorter := k.Undo();
    if n == |k.frames| - 1 {
      UndoRestores(k);
    } else {
      StackedBelow(k.frames);
      UnwindRestores(shorter, n);
    }
  }

  lemma StackedBelow(frames: seq<Frame>)
    requires Stacked(frames) && frames != []
    ensures Stacked(frames[..|frames| - 1])
  {
    var shorter := frames[..|frames| - 1];
    forall i | 0 <= i < |shorter| ensures Stackable(shorter, i) {
      assert Stackable(frames, i) && shorter[i] == frames[i];
    }
  }

  /**
    After every run in order the unfinished objects form one chain to a top-level one, and the newest
    is the current one. When owners are lost, every unfinished object that is destroyed is the current
    one at that time, whatever the order of the drops, and with or without a result outstanding.
   */
  lemma OnlyTheCurrentIsDestroyed(db: Db, es: seq<Event>, f: Event, s: Client) returns (frames: seq<Frame>)
    requires ValidRun(Connected(db), es) && s == After(db, es)
    ensures Chained(s, frames)
    ensures Enabled(s, f) && InOrder(s, f) && Loosens(f) ==> OnlyCurrentGo(Loosened(s, f), FirstToGo(s, f))
  {
    var k := EveryRunRefinesTheStack(db, es);
    frames := k.frames;
    if Enabled(s, f) && InOrder(s, f) && Loosens(f) {
      var n, end, next;
      if f.DropHandle? {
        ReleaseRelates(s, k, f.a, Loosened(s, f));
        n, end, next := CollectRefines(Loosened(s, f), k, FirstToGo(s, f));
      } else {
        FinishRelates(s, k, f.t, Loosened(s, f));
        n, end, next := CollectRefines(Loosened(s, f), k.Pop(), FirstToGo(s, f));
      }
    }
  }

  /** The object that may be without an owner. */
  function FirstToGo(s: Client, f: Event): Option<Addr>
    requires Enabled(s, f) && Loosens(f)
  {
    if f.DropHandle? then Some(f.a) else s.objects[f.t].previous
  }

  /** The client when the oldest `m` frames are left. */
  lemma DepthOf(s: Client, frames: seq<Frame>, s3: Client, m: nat, n: nat)
    requires Chained(s, frames) && m <= |frames| && Chained(s3, frames[..m]) && n < |frames|
    ensures IsOpen(s3, frames[n].id) <==> n < m
    ensures s3.current == (if n == 0 then None else Some(frames[n - 1].id)) <==> m == n
  {
    if n < m {
      assert ChainedAt(s3, frames[..m], n) && frames[..m][n] == frames[n];
    } else if IsOpen(s3, frames[n].id) {
      RemainingFrame(s, frames, s3, m, n);
    }
  }

  /** The database after a call that gave up everything from a frame on. */
  lemma UnwoundIsRestored(s: Client, k: Stack, end: Stack, a: Addr, nested: bool, s3: Client, next: Stack)
    requires Implements(s, k) && Implements(s3, next) && Above(k, end, a, s.server, nested)
    requires Stacked(end.frames) && !end.lost
    requires next == end.Unwind(|end.frames| - |k.frames|, false)
    ensures Restored(s, s3) <==> nested || s.server.View() == s.server.committed
  {
    UnwindRestores(end, |k.frames|);
    SameView(s3, next);
  }

  /** The current object of `s` is the newest below the frame that is above. */
  lemma BelowIsCurrent(s: Client, k: Stack, end: Stack)
    requires Implements(s, k) && |k.frames| <= |end.frames| && end.frames[..|k.frames|] == k.frames
    ensures s.current == if k.frames == [] then None else Some(end.frames[|k.frames| - 1].id)
  {
  }

  /** What a loosening call leaves, in terms of the transaction at `a` and of the one below it. */
  lemma WhatIsLeft(s2: Client, end: Stack, f: Event, n: nat, m: nat)
    requires Implements(s2, end) && Enabled(s2, f) && InOrder(s2, f) && Loosens(f)
    requires n < |end.frames| && !end.frames[n].kind.Pipe? && Leaves(s2, end, f, m)
    ensures m == n <==> !Kept(Loosened(s2, f), end.frames[n].id)
                        && (n > 0 ==> Kept(Loosened(s2, f), end.frames[n - 1].id))
  {
    if f.FinishPipeline? {
      CurrentIsTop(s2, end, f.t);
    }
  }

  /** Nobody keeps the transaction at `a` any more, but somebody keeps the one below it. */
  ghost predicate LastKept(s2: Client, f: Event, a: Addr, below: Option<Addr>)
    requires Enabled(s2, f) && Loosens(f)
  {
    !Kept(Loosened(s2, f), a) && (below.Some? ==> Kept(Loosened(s2, f), below.value))
  }

  lemma LoosenedAbove(s: Client, k: Stack, s2: Client, end: Stack, a: Addr, nested: bool, f: Event, s3: Client)
    returns (m: nat, next: Stack)
    requires Implements(s, k) && Implements(s2, end) && Above(k, end, a, s.server, nested)
    requires Enabled(s2, f) && InOrder(s2, f) && Loosens(f) && s3 == Step(s2, f).0
    ensures Implements(s3, next) && m <= |end.frames| && next == end.Unwind(|end.frames| - m, s2.busy)
    ensures m == |k.frames| <==> LastKept(s2, f, a, s.current)
    ensures m == |k.frames| <==> !IsOpen(s3, a) && s3.current == s.current
  {
    m, next := LoosenRefines(s2, end, f);
    BelowIsCurrent(s, k, end);
    WhatIsLeft(s2, end, f, |k.frames|, m);
    DepthOf(s2, end.frames, s3, m, |k.frames|);
  }

  lemma AboveIsRestored(s: Client, k: Stack, s2: Client, end: Stack, a: Addr, nested: bool, f: Event, s3: Client)
    requires Implements(s, k) && Implements(s2, end) && Above(k, end, a, s.server, nested)
    requires Enabled(s2, f) && InOrder(s2, f) && Loosens(f) && s3 == Step(s2, f).0
    ensures LastKept(s2, f, a, s.current) <==> !IsOpen(s3, a) && s3.current == s.current
    ensures LastKept(s2, f, a, s.current) && !s2.busy && !s2.server.block.Lost? ==>
              (Restored(s, s3) <==> nested || s.server.View() == s.server.committed)
  {
    var m, next := LoosenedAbove(s, k, s2, end, a, nested, f, s3);
    if m == |k.frames| && !s2.busy && !end.lost {
      ChainedIsStacked(s2, end.frames);
      UnwoundIsRestored(s, k, end, a, nested, s3, next);
    }
  }

  lemma DestroyUnheard(s: Client, a: Addr)
    requires s.busy && a in s.objects
    ensures Destroy(s, a).server == s.server && Destroy(s, a).busy
  {
  }

  /** While a result is outstanding, the server hears nothing of the objects that go. */
  lemma {:induction false} CollectUnheard(s: Client, a: Option<Addr>)
    requires s.busy
    ensures Collect(s, a).server == s.server
    decreases |s.objects|
  {
    if a.Some? && a.value in s.objects && !Alive(s, a.value) {
      var after := Destroy(s, a.value);
      DestroyUnheard(s, a.value);
      FewerObjects(s, after, a.value);
      CollectUnheard(after, s.objects[a.value].previous);
    }
  }

  /**
    Losing owners restores. A transaction is created at `a` after any run, and any further run leaves
    it unfinished. Then a handle is dropped, or a pipeline is finished, so that nobody keeps the
    transaction any more, but somebody keeps the one below it: however many newer ones go with it,
    the one below is current, and the server is left as it was when the transaction was created. It
    is left as it is when a result is outstanding.
   */
  lemma DropRestores(db: Db, es0: seq<Event>, e: Event, a: Addr, es: seq<Event>, f: Event,
      s: Client, s2: Client, s3: Client)
    requires Lives(db, es0, e, a, es) && s == After(db, es0) && s2 == Later(s, e, a, es)
    requires Loosens(f) && Enabled(s2, f) && InOrder(s2, f) && s3 == Step(s2, f).0
    ensures LastKept(s2, f, a, s.current) <==> !IsOpen(s3, a) && s3.current == s.current
    ensures s2.busy ==> s3.server == s2.server
    ensures LastKept(s2, f, a, s.current) && !s2.busy && !s2.server.block.Lost? ==> (Restored(s, s3) <==> Clean(s, e))
  {
    var k := EveryRunRefinesTheStack(db, es0);
    var end := FrameAtEnd(s, k, e, a, Step(s, e).0, es, s2);
    AboveIsRestored(s, k, s2, end, a, MakesNested(s, e), f, s3);
    if s2.busy {
      CollectUnheard(Loosened(s2, f), FirstToGo(s2, f));
    }
  }

  /** Dropping the only handle of the newest transaction, whose parent has an owner of its own. */
  lemma OwnDropRestores(db: Db, es0: seq<Event>, e: Event, a: Addr, es: seq<Event>, s: Client, s2: Client)
    requires Lives(db, es0, e, a, es) && s == After(db, es0) && s2 == Later(s, e, a, es) && Ready(s2, a)
    requires Callable(s2, a) && !Referenced(s2, a)
    requires s.current.Some? ==> Callable(s2, s.current.value)
    ensures Step(s2, DropHandle(a)).0.current == s.current
    ensures Restored(s, Step(s2, DropHandle(a)).0) <==> Clean(s, e)
  {
    var f, released := DropHandle(a), Release(s2, a);
    assert !Referenced(released, a);
    UnownedIsNotKept(released, a);
    CreatedElsewhere(db, es0, e, a, s);
    if s.current.Some? {
      HeldIsKept(released, s.current.value);
    }
    DropRestores(db, es0, e, a, es, f, s, s2, Step(s2, f).0);
  }

  lemma {:induction false} CreatedElsewhere(db: Db, es0: seq<Event>, e: Event, a: Addr, s: Client)
    requires ValidRun(Connected(db), es0) && s == After(db, es0) && Enabled(s, e) && Creates(s, e, a)
    ensures s.current != Some(a)
  {
    var k := EveryRunRefinesTheStack(db, es0);
    if s.current == Some(a) {
      CurrentIsTop(s, k, a);
    }
  }
}
