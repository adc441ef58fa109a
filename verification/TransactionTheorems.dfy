/** What the refinement means for whole runs. */
module TransactionTheorems {
  import opened Basics
  import opened SavepointServer
  import opened Transactions
  import opened TransactionStack
  import opened TransactionOwners
  import opened TransactionRefinement
  import opened TransactionRuns

  /** A fresh connection. */
  function Connected(db: Db): Client { Client(None, map[], false, Server(db, Idle)) }

  function EmptyStack(db: Db): Stack { Stack([], db, db, false, false, false) }

  predicate ValidRun(s: Client, es: seq<Event>)
    decreases |es|
  {
    es == [] || (Enabled(s, es[0]) && InOrder(s, es[0]) && ValidRun(Step(s, es[0]).0, es[1..]))
  }

  function Run(s: Client, es: seq<Event>): Client
    requires ValidRun(s, es)
    decreases |es|
  {
    if es == [] then s else Run(Step(s, es[0]).0, es[1..])
  }

  /** The plain stack makes the same run. */
  ghost predicate StackRun(k: Stack, s: Client, es: seq<Event>, end: Stack)
    requires ValidRun(s, es)
    decreases |es|
  {
    if es == [] then end == k
    else exists next :: StackStep(s, k, es[0], Step(s, es[0]).1, next) && StackRun(next, Step(s, es[0]).0, es[1..], end)
  }

  lemma {:induction false} RunRefines(s: Client, k: Stack, es: seq<Event>) returns (end: Stack)
    requires Implements(s, k) && ValidRun(s, es)
    ensures StackRun(k, s, es, end) && Implements(Run(s, es), end)
    decreases |es|
  {
    if es == [] {
      end := k;
    } else {
      var next := StepRefines(s, k, es[0]);
      end := RunRefines(Step(s, es[0]).0, next, es[1..]);
    }
  }

  lemma ConnectedIsEmpty(db: Db)
    ensures Implements(Connected(db), EmptyStack(db))
  {
    assert RankedBy(Connected(db), map[]);
  }

  /**
    Every run of a connection refines a run of the plain stack: the unfinished objects form one
    chain, the newest one is current, and every live savepoint is found by its name.
   */
  lemma EveryRunRefinesTheStack(db: Db, es: seq<Event>) returns (end: Stack)
    requires ValidRun(Connected(db), es)
    ensures StackRun(EmptyStack(db), Connected(db), es, end) && Implements(Run(Connected(db), es), end)
  {
    ConnectedIsEmpty(db);
    end := RunRefines(Connected(db), EmptyStack(db), es);
  }

  /** The view of the server is the view of the stack. */
  lemma SameView(s: Client, k: Stack)
    requires Implements(s, k)
    ensures s.server.View() == k.View()
  {
  }

  // ---------- a transaction's frame, while the transaction is open ----------

  /** A step adds one frame on top, or removes frames from the top. */
  lemma FramesAfterStep(s: Client, k: Stack, e: Event, ok: bool, next: Stack)
    requires Enabled(s, e) && StackStep(s, k, e, ok, next)
    ensures (exists f :: next.frames == k.frames + [f])
         || (exists m :: 0 <= m <= |k.frames| && next.frames == k.frames[..m])
  {
    assert k.frames[..|k.frames|] == k.frames;
    match e
    case FinishPipeline(t) =>
      var n :| 0 <= n < |k.frames| && next == k.Unwind(n + 1, s.busy) && Loses(Finish(s, t), k.Pop().frames, n);
      UnwindFrames(k, n + 1, s.busy);
    case DropHandle(a) =>
      var n :| 0 <= n <= |k.frames| && next == k.Unwind(n, s.busy) && Loses(Release(s, a), k.frames, n);
      UnwindFrames(k, n, s.busy);
    case CommitBy(_, _) => assert next.frames == k.frames[..|k.frames| - 1];
    case RollbackBy(_) => assert next.frames == k.frames[..|k.frames| - 1];
    case Opening(a, kind) => PushFrames(k, a, kind);
    case Subtransaction(_, a) =>
      if ok {
        PushFrames(k, a, if k.Top().kind.Direct? then TopSub else Nested);
      }
    case StartPipeline(_, a) => PushFrames(k, a, Pipe);
    case StartGuard(a) => PushFrames(k, a, Guard);
    case _ => assert next.frames == k.frames;
  }

  lemma PushFrames(k: Stack, a: Addr, kind: Kind)
    ensures k.Push(a, kind).frames == k.frames + [Frame(a, kind, k.View())]
  {
  }

  /** While a transaction stays open, its frame and those below it do not change. */
  lemma FramesBelowStay(s: Client, k: Stack, e: Event, ok: bool, next: Stack, n: nat)
    requires Enabled(s, e) && StackStep(s, k, e, ok, next) && n < |k.frames| && n < |next.frames|
    ensures next.frames[..n + 1] == k.frames[..n + 1]
  {
    FramesAfterStep(s, k, e, ok, next);
  }

  /** While a block is open, nothing gets committed. */
  lemma NothingCommitted(s: Client, k: Stack, e: Event, ok: bool, next: Stack, n: nat)
    requires Enabled(s, e) && StackStep(s, k, e, ok, next)
    requires Stacked(k.frames) && n < |k.frames| && n < |next.frames|
    requires InTx(k.frames[..n + 1])
    ensures next.committed == k.committed
  {
    assert k.frames[..|k.frames|] == k.frames;
    match e
    case CommitBy(_, refused) =>
      if Starts(k.Top().kind) {
        OneStart(k.frames);
      }
    case FinishPipeline(t) =>
      var m :| 0 <= m < |k.frames| && next == k.Unwind(m + 1, s.busy) && Loses(Finish(s, t), k.Pop().frames, m);
      UnwindFrames(k, m + 1, s.busy);
    case DropHandle(a) =>
      var m :| 0 <= m <= |k.frames| && next == k.Unwind(m, s.busy) && Loses(Release(s, a), k.frames, m);
      UnwindFrames(k, m, s.busy);
    case _ =>
  }

  predicate IsOpen(s: Client, a: Addr) { a in s.objects && Open(s.objects[a]) }

  /** An open transaction keeps its place on the stack. */
  lemma OpenKeepsItsPlace(k: Stack, after: Client, next: Stack, n: nat)
    requires n < |k.frames| && (forall i :: 0 <= i < |k.frames| && i != n ==> k.frames[i].id != k.frames[n].id)
    requires (exists f :: next.frames == k.frames + [f])
          || (exists m :: 0 <= m <= |k.frames| && next.frames == k.frames[..m])
    requires Chained(after, next.frames) && IsOpen(after, k.frames[n].id)
    ensures n < |next.frames|
  {
    assert InFrames(next.frames, k.frames[n].id);
    var i :| 0 <= i < |next.frames| && next.frames[i].id == k.frames[n].id;
    if i < |k.frames| {
      assert next.frames[i] == k.frames[i];
    }
  }

  /** The transaction at `a` is not finished at any point of the run. */
  predicate OpenThroughout(s: Client, es: seq<Event>, a: Addr)
    requires ValidRun(s, es)
    decreases |es|
  {
    IsOpen(s, a) && (es == [] || OpenThroughout(Step(s, es[0]).0, es[1..], a))
  }

  lemma {:induction false} FrameStays(s: Client, k: Stack, es: seq<Event>, n: nat) returns (end: Stack)
    requires Implements(s, k) && ValidRun(s, es) && n < |k.frames|
    requires InTx(k.frames[..n + 1]) && OpenThroughout(s, es, k.frames[n].id)
    ensures Implements(Run(s, es), end) && n < |end.frames|
    ensures end.frames[..n + 1] == k.frames[..n + 1] && end.committed == k.committed
    decreases |es|
  {
    if es == [] {
      end := k;
    } else {
      var after, ok := Step(s, es[0]).0, Step(s, es[0]).1;
      var next := StepRefines(s, k, es[0]);
      FramesAfterStep(s, k, es[0], ok, next);
      OpenKeepsItsPlace(k, after, next, n);
      FramesBelowStay(s, k, es[0], ok, next, n);
      ChainedIsStacked(s, k.frames);
      NothingCommitted(s, k, es[0], ok, next, n);
      assert next.frames[..n + 1][n] == k.frames[..n + 1][n];
      end := FrameStays(after, next, es[1..], n);
    }
  }

  /** A transaction was created at `a`; it is one that the server knows about. */
  predicate Creates(s: Client, e: Event, a: Addr)
    requires Enabled(s, e)
  {
    && (e == Opening(a, TopLevel) || (e.Subtransaction? && e.a == a))
    && Step(s, e).1
  }

  /** The frame of the new transaction holds what the database showed. */
  lemma PushedFrame(k: Stack, a: Addr, kind: Kind, next: Stack)
    requires next == k.Push(a, kind) && (Starts(kind) || kind.Nested?) && Stacked(next.frames)
    ensures |next.frames| == |k.frames| + 1 && next.Top().id == a && next.Top().saved == k.View()
    ensures next.Top().kind == kind && next.committed == k.committed
    ensures next.frames[..|k.frames|] == k.frames
    ensures next.frames[..|k.frames| + 1] == next.frames && InTx(next.frames)
  {
    NestedInTx(next.frames, |next.frames| - 1);
  }

  lemma CreatedFrame(s: Client, k: Stack, e: Event, a: Addr) returns (next: Stack, kind: Kind)
    requires Implements(s, k) && Enabled(s, e) && Creates(s, e, a)
    ensures Implements(Step(s, e).0, next) && Stacked(next.frames)
    ensures next == k.Push(a, kind) && (Starts(kind) || kind.Nested?)
    ensures kind.Nested? <==> MakesNested(s, e)
  {
    next := StepRefines(s, k, e);
    kind := TopLevel;
    if e.Subtransaction? {
      CurrentIsTop(s, k, e.t);
      kind := if k.Top().kind.Direct? then TopSub else Nested;
    }
    ChainedIsStacked(Step(s, e).0, next.frames);
  }

  /** What rolling back a transaction leads to: for one that starts a block, what is committed. */
  function Origin(f: Frame, committed: Db): Db { if f.kind.Nested? then f.saved else committed }

  lemma UndoRestores(k: Stack)
    requires Stacked(k.frames) && k.frames != [] && !k.lost
    requires Starts(k.Top().kind) || k.Top().kind.Nested?
    ensures k.Undo().View() == Origin(k.Top(), k.committed) && !k.Undo().lost
    ensures k.Undo().InTransaction() ==> !k.Undo().failed
  {
    SplitTop(k);
    if Starts(k.Top().kind) {
      OneStart(k.frames);
    } else {
      NestedInTx(k.frames, |k.frames| - 1);
    }
  }

  /** The state of the server, as the statements of the parent see it from now on. */
  predicate Restored(before: Client, after: Client) {
    && after.server.View() == before.server.View()
    && after.server.committed == before.server.committed
    && (after.server.block.InBlock? ==> !after.server.block.failed)
  }

  predicate MakesNested(s: Client, e: Event) {
    e.Subtransaction? && e.t in s.objects && !s.objects[e.t].kind.Direct?
  }

  /** The new transaction is a nested one, or there is nothing that a stray block has not committed. */
  predicate Clean(s: Client, e: Event) { MakesNested(s, e) || s.server.View() == s.server.committed }

  /** The frame on top of `k` is that of a transaction created at `a`, and holds what `before` showed. */
  ghost predicate Above(k: Stack, end: Stack, a: Addr, before: Server, nested: bool) {
    var n := |k.frames|;
    && n < |end.frames| && end.frames[..n] == k.frames
    && end.frames[n].id == a && (if nested then end.frames[n].kind.Nested? else Starts(end.frames[n].kind))
    && end.frames[n].saved == before.View() && end.committed == before.committed
  }

  /** A new transaction is above those that are there. */
  lemma CreatedAbove(s: Client, k: Stack, e: Event, a: Addr) returns (next: Stack)
    requires Implements(s, k) && Enabled(s, e) && Creates(s, e, a)
    ensures Implements(Step(s, e).0, next) && Above(k, next, a, s.server, MakesNested(s, e))
    ensures InTx(next.frames[..|k.frames| + 1])
  {
    var kind;
    next, kind := CreatedFrame(s, k, e, a);
    PushedFrame(k, a, kind, next);
    SameView(s, k);
  }

  /** It stays there while it is open. */
  lemma StaysAbove(s1: Client, k: Stack, next: Stack, a: Addr, before: Server, nested: bool, es: seq<Event>,
                   s2: Client)
    returns (end: Stack)
    requires Implements(s1, next) && Above(k, next, a, before, nested) && InTx(next.frames[..|k.frames| + 1])
    requires ValidRun(s1, es) && OpenThroughout(s1, es, a) && s2 == Run(s1, es)
    ensures Implements(s2, end) && Above(k, end, a, before, nested)
  {
    var n := |k.frames|;
    end := FrameStays(s1, next, es, n);
    assert end.frames[n] == end.frames[..n + 1][n] && next.frames[n] == next.frames[..n + 1][n];
    assert end.frames[..n] == end.frames[..n + 1][..n] && next.frames[..n] == next.frames[..n + 1][..n];
  }

  /** At the end of a run in which the transaction created at `a` stays open, its frame is in its place. */
  lemma FrameAtEnd(s: Client, k: Stack, e: Event, a: Addr, s1: Client, es: seq<Event>, s2: Client)
    returns (end: Stack)
    requires Implements(s, k) && Enabled(s, e) && Creates(s, e, a) && s1 == Step(s, e).0
    requires ValidRun(s1, es) && OpenThroughout(s1, es, a) && s2 == Run(s1, es)
    ensures Implements(s2, end) && Above(k, end, a, s.server, MakesNested(s, e))
  {
    var next := CreatedAbove(s, k, e, a);
    end := StaysAbove(s1, k, next, a, s.server, MakesNested(s, e), es, s2);
  }

  /** When the transaction is the current one, its frame is the top one. */
  lemma CurrentIsAbove(s2: Client, k: Stack, end: Stack, a: Addr, before: Server, nested: bool)
    requires Implements(s2, end) && Above(k, end, a, before, nested) && s2.current == Some(a)
    ensures |end.frames| == |k.frames| + 1 && end.Top() == end.frames[|k.frames|]
  {
    CurrentIsTop(s2, end, a);
  }

  /** The connection after a run. */
  function After(db: Db, es0: seq<Event>): Client
    requires ValidRun(Connected(db), es0)
  {
    Run(Connected(db), es0)
  }

  /** After the run `es0` a transaction is created at `a`, and is not finished during the run `es`. */
  predicate Lives(db: Db, es0: seq<Event>, e: Event, a: Addr, es: seq<Event>) {
    ValidRun(Connected(db), es0) && LivesIn(After(db, es0), e, a, es)
  }

  predicate LivesIn(s: Client, e: Event, a: Addr, es: seq<Event>) {
    && Enabled(s, e) && Creates(s, e, a)
    && ValidRun(Step(s, e).0, es) && OpenThroughout(Step(s, e).0, es, a)
  }

  /** The connection after both runs. */
  function Later(s: Client, e: Event, a: Addr, es: seq<Event>): Client
    requires LivesIn(s, e, a, es)
  {
    Run(Step(s, e).0, es)
  }

  /** The transaction is the current one, and the server can be asked. */
  predicate Ready(s: Client, a: Addr) {
    s.current == Some(a) && !s.busy && !s.server.block.Lost?
  }

  /** The frame on top of the stack, and the stack below it. */
  lemma ReadyAtEnd(db: Db, es0: seq<Event>, e: Event, a: Addr, es: seq<Event>, s: Client, s2: Client)
    returns (k: Stack, end: Stack)
    requires Lives(db, es0, e, a, es) && s == After(db, es0) && s2 == Later(s, e, a, es) && s2.current == Some(a)
    ensures Implements(s, k) && Implements(s2, end) && end.IsTop(a) && end.frames[..|end.frames| - 1] == k.frames
    ensures end.Top().saved == s.server.View() && end.committed == s.server.committed
    ensures if MakesNested(s, e) then end.Top().kind.Nested? else Starts(end.Top().kind)
  {
    k := EveryRunRefinesTheStack(db, es0);
    end := FrameAtEnd(s, k, e, a, Step(s, e).0, es, s2);
    CurrentIsAbove(s2, k, end, a, s.server, MakesNested(s, e));
  }

  /**
    Rolling back restores: after any run of a connection, a transaction is created, and after any
    further run in which it is not finished, `rollback` leaves the server as it was when the
    transaction was created, even when the server is in the failed state. The one exception is a
    transaction that started its block while the server was in a stray one, and found changes there.
   */
  lemma RollbackRestores(db: Db, es0: seq<Event>, e: Event, a: Addr, es: seq<Event>, s: Client, s2: Client)
    requires Lives(db, es0, e, a, es) && s == After(db, es0) && s2 == Later(s, e, a, es) && Ready(s2, a)
    ensures a in s2.objects && Rollback(s2, a).1
    ensures Rollback(s2, a).0.current == s.current && (Restored(s, Rollback(s2, a).0) <==> Clean(s, e))
  {
    var k, end := ReadyAtEnd(db, es0, e, a, es, s, s2);
    RollbackOfTop(s2, end, a, s, k);
  }

  /** The destructor of the transaction does the same. */
  lemma DestructorRestores(db: Db, es0: seq<Event>, e: Event, a: Addr, es: seq<Event>, s: Client, s2: Client)
    requires Lives(db, es0, e, a, es) && s == After(db, es0) && s2 == Later(s, e, a, es) && Ready(s2, a)
    ensures a in s2.objects && Destroy(s2, a).current == s.current && (Restored(s, Destroy(s2, a)) <==> Clean(s, e))
  {
    var k, end := ReadyAtEnd(db, es0, e, a, es, s, s2);
    CurrentIsTop(s2, end, a);
    RollbackOfTop(s2, end, a, s, k);
    DestroyOpen(s2, end, a);
  }

  predicate IsOrigin(s: Client, f: Frame) { f.kind.Nested? || s.server.View() == s.server.committed }

  lemma RollbackOfTop(s2: Client, end: Stack, a: Addr, s: Client, k: Stack)
    requires Implements(s, k) && Implements(s2, end) && s2.current == Some(a) && !s2.busy && !end.lost
    requires end.frames != [] && end.Top().id == a
    requires end.Top().saved == s.server.View() && end.committed == s.server.committed
    requires Starts(end.Top().kind) || end.Top().kind.Nested?
    requires end.frames[..|end.frames| - 1] == k.frames
    ensures a in s2.objects && Rollback(s2, a).1
    ensures Rollback(s2, a).0.current == s.current
    ensures Restored(s, Rollback(s2, a).0) <==> IsOrigin(s, end.Top())
    ensures ServeIfAny(s2.server, RollbackCommand(end.Top().kind, a)).0 == Rollback(s2, a).0.server
    ensures s2.objects[a].previous == s.current
  {
    CurrentIsTop(s2, end, a);
    var after := Rollback(s2, a).0;
    RollbackRefines(s2, end, a);
    NestedInTx(end.frames, |end.frames| - 1);
    RollbackSucceeds(s2.server, end);
    SameChainSameCurrent(s, after, k, end.Undo());
    UndoneIsRestored(s, end, after);
  }

  lemma SameChainSameCurrent(s: Client, after: Client, k: Stack, next: Stack)
    requires Implements(s, k) && Implements(after, next) && next.frames == k.frames
    ensures after.current == s.current
  {
  }

  lemma UndoneIsRestored(s: Client, end: Stack, after: Client)
    requires end.frames != [] && Implements(after, end.Undo()) && Stacked(end.frames) && !end.lost
    requires Starts(end.Top().kind) || end.Top().kind.Nested?
    requires end.Top().saved == s.server.View() && end.committed == s.server.committed
    ensures Restored(s, after) <==> IsOrigin(s, end.Top())
  {
    UndoRestores(end);
    SameView(after, end.Undo());
    BlockAfterUndo(after.server, end);
  }

  lemma RollbackSucceeds(server: Server, k: Stack)
    requires Backed(server, k) && Stacked(k.frames) && k.frames != [] && !k.lost && k.InTransaction()
    ensures ServeIfAny(server, RollbackCommand(k.Top().kind, k.Top().id)).1
  {
    if k.Top().kind.Nested? {
      assert SavepointFound(server.block.savepoints, k.frames[|k.frames| - 1]);
    }
  }

  lemma BlockAfterUndo(after: Server, k: Stack)
    requires k.frames != [] && !k.lost && Backed(after, k.Undo()) && Stacked(k.frames)
    requires Starts(k.Top().kind) || k.Top().kind.Nested?
    ensures after.block.InBlock? ==> !after.block.failed
  {
    if Starts(k.Top().kind) {
      OneStart(k.frames);
    }
  }

  /**
    Names survive the reuse of addresses: as long as a nested transaction is not finished, the most
    recent savepoint with its name is its own, and holds the state of the server when the
    transaction was created, whatever stale savepoints earlier objects at the same or at other
    addresses have left behind.
   */
  lemma {:induction false} OwnSavepointIsFound(db: Db, es0: seq<Event>, t: Addr, a: Addr, es: seq<Event>, s: Client,
                                               s2: Client)
    requires Lives(db, es0, Subtransaction(t, a), a, es) && s == After(db, es0)
    requires s2 == Later(s, Subtransaction(t, a), a, es) && !s.objects[t].kind.Direct? && !s2.server.block.Lost?
    ensures s2.server.block.InBlock? && Lookup(s2.server.block.savepoints, a) >= 0
    ensures s2.server.block.savepoints[Lookup(s2.server.block.savepoints, a)] == Savepoint(a, s.server.View())
  {
    var k := EveryRunRefinesTheStack(db, es0);
    var s1 := Step(s, Subtransaction(t, a)).0;
    var next := NestedFrame(s, k, t, a, s1);
    SavepointStays(s1, next, es, s2);
  }

  lemma NestedFrame(s: Client, k: Stack, t: Addr, a: Addr, s1: Client) returns (next: Stack)
    requires Implements(s, k) && Enabled(s, Subtransaction(t, a)) && !s.objects[t].kind.Direct?
    requires Step(s, Subtransaction(t, a)) == (s1, true)
    ensures Implements(s1, next) && |next.frames| == |k.frames| + 1 && InTx(next.frames)
    ensures next.Top().kind.Nested? && next.Top().id == a && next.Top().saved == s.server.View()
  {
    var kind;
    next, kind := CreatedFrame(s, k, Subtransaction(t, a), a);
    PushedFrame(k, a, kind, next);
    SameView(s, k);
  }

  lemma {:induction false} SavepointStays(s: Client, k: Stack, es: seq<Event>, s2: Client)
    requires Implements(s, k) && k.frames != [] && InTx(k.frames) && k.Top().kind.Nested?
    requires ValidRun(s, es) && OpenThroughout(s, es, k.Top().id) && s2 == Run(s, es) && !s2.server.block.Lost?
    ensures var block := s2.server.block;
            && block.InBlock? && Lookup(block.savepoints, k.Top().id) >= 0
            && block.savepoints[Lookup(block.savepoints, k.Top().id)] == Savepoint(k.Top().id, k.Top().saved)
  {
    assert k.frames[..|k.frames|] == k.frames;
    var end := FrameStays(s, k, es, |k.frames| - 1);
  }
}
