/** Runs of the client: any interleaving of creations, statements, finishes and handle drops. */
module TransactionRuns {
  import opened Basics
  import opened SavepointServer
  import opened Transactions
  import opened TransactionStack
  import opened TransactionOwners
  import opened TransactionRefinement

  datatype Event =
    | Opening(a: Addr, kind: Kind)          // connection::direct, connection::transaction
    | Subtransaction(t: Addr, a: Addr)
    | StartPipeline(t: Addr, a: Addr)
    | StartGuard(a: Addr)                   // a table_reader or table_writer blocks the connection
    | Send(t: Addr, effect: Option<Db>)
    | FetchResult(t: Addr)
    | CommitBy(t: Addr, refused: bool)
    | RollbackBy(t: Addr)
    | FinishPipeline(t: Addr)
    | DropHandle(a: Addr)
    | LoseConnection

  predicate IsTransaction(kind: Kind) { !kind.Guard? && !kind.Pipe? }

  /** Somebody outside owns the object and can call its methods. */
  predicate Callable(s: Client, t: Addr) { t in s.objects && s.objects[t].held }

  /**
    What can happen. A new object never lies at the address of one that still exists; `commit` and
    `rollback` of an object without a connection have no defined outcome.
   */
  predicate Enabled(s: Client, e: Event) {
    match e
    case Opening(a, kind) => a !in s.objects && (kind.Direct? || kind.TopLevel?)
    case Subtransaction(t, a) => Callable(s, t) && IsTransaction(s.objects[t].kind) && a !in s.objects
    case StartPipeline(t, a) => Callable(s, t) && IsTransaction(s.objects[t].kind) && a !in s.objects
    case StartGuard(a) => s.current.Some? && a !in s.objects
    case Send(t, _) => Callable(s, t)
    case FetchResult(t) => Callable(s, t)
    case CommitBy(t, _) => Callable(s, t) && IsTransaction(s.objects[t].kind) && s.objects[t].connected
    case RollbackBy(t) => Callable(s, t) && IsTransaction(s.objects[t].kind) && s.objects[t].connected
    case FinishPipeline(t) => Callable(s, t) && s.objects[t].kind.Pipe?
    case DropHandle(a) => Callable(s, a)
    case LoseConnection => true
  }

  /**
    Logical lifetimes are ended in the reverse order of their starts (doc/Transaction.md, "Transaction
    Ordering"). Handles may be dropped in any order, and anything may end while a result is outstanding.
   */
  predicate InOrder(s: Client, e: Event) {
    match e
    case CommitBy(t, _) => s.current == Some(t)
    case RollbackBy(t) => s.current == Some(t)
    case FinishPipeline(t) => s.current == Some(t)
    case _ => true
  }

  /** `check_current_transaction` */
  predicate IsCurrent(s: Client, t: Addr)
    requires t in s.objects
  {
    s.objects[t].connected && s.current == Some(t)
  }

  function Release(s: Client, a: Addr): Client
    requires a in s.objects
  {
    s.(objects := s.objects[a := s.objects[a].(held := false)])
  }

  function Finish(s: Client, t: Addr): Client
    requires t in s.objects
  {
    s.(current := s.objects[t].previous, objects := s.objects[t := s.objects[t].(previous := None)])
  }

  /** One call: the new state, and whether the call returns without an exception. */
  function Step(s: Client, e: Event): (Client, bool)
    requires Enabled(s, e)
  {
    match e
    case Opening(a, kind) => if s.current.Some? then (s, false) else Construct(s, a, kind)
    case Subtransaction(t, a) =>
      if !IsCurrent(s, t) then (s, false)
      else Construct(s, a, if s.objects[t].kind.Direct? then TopSub else Nested)
    case StartPipeline(t, a) =>
      if !IsCurrent(s, t) || s.busy || s.server.block.Lost? then (s, false) else Construct(s, a, Pipe)
    case StartGuard(a) => Construct(s, a, Guard)
    case Send(t, effect) =>
      if !IsCurrent(s, t) || s.busy || s.server.block.Lost? then (s, false)
      else (s.(server := Serve(s.server, Statement(effect)).0, busy := true), true)
    case FetchResult(t) => if !IsCurrent(s, t) || !s.busy then (s, false) else (s.(busy := false), true)
    case CommitBy(t, refused) => Commit(s, t, refused)
    case RollbackBy(t) => Rollback(s, t)
    case FinishPipeline(t) =>
      if s.objects[t].previous.None? then (s, true)
      else (Collect(Finish(s, t), s.objects[t].previous), !s.busy)
    case DropHandle(a) => (Collect(Release(s, a), Some(a)), true)
    case LoseConnection => (s.(busy := false, server := s.server.(block := Lost)), true)
  }

  /** Whether the call returns without an exception, as far as the plain stack knows. */
  predicate Succeeds(k: Stack, busy: bool, e: Event) {
    var ready := !busy && !k.lost;
    var failed := k.InTransaction() && k.failed;
    match e
    case Opening(_, kind) => k.frames == [] && (Starts(kind) ==> ready && !failed)
    case Subtransaction(t, _) => k.IsTop(t) && ready && !failed
    case StartPipeline(t, _) => k.IsTop(t) && ready
    case Send(t, _) => k.IsTop(t) && ready
    case FetchResult(t) => k.IsTop(t) && busy
    case CommitBy(t, refused) =>
      k.IsTop(t) && (ready || k.Top().kind.Direct?)
      && (k.Top().kind.Nested? ==> !failed) && (Starts(k.Top().kind) ==> failed || !refused)
    case RollbackBy(t) => k.IsTop(t) && (ready || k.Top().kind.Direct?)
    case FinishPipeline(t) => k.IsTop(t) && !busy
    case _ => true
  }

  /**
    What the same call does to the plain stack. Dropping a handle, or finishing a pipeline, which
    lets go of its parent, gives up exactly the newest transactions that nobody keeps any more.
    While a result is outstanding transactions end without a word to the server.
   */
  ghost predicate StackStep(s: Client, k: Stack, e: Event, ok: bool, next: Stack)
    requires Enabled(s, e)
  {
    && ok == Succeeds(k, s.busy, e)
    && match e
       case Opening(a, kind) => next == if ok then k.Push(a, kind) else k
       case Subtransaction(_, a) =>
         next == if ok then k.Push(a, if k.Top().kind.Direct? then TopSub else Nested) else k
       case StartPipeline(_, a) => next == if ok then k.Push(a, Pipe) else k
       case StartGuard(a) => next == k.Push(a, Guard)
       case Send(_, effect) => next == if ok then k.Write(effect) else k
       case FetchResult(_) => next == k
       case CommitBy(t, refused) => k.IsTop(t) && next == if s.busy then k.Abandon() else k.Keep(refused)
       case RollbackBy(t) => k.IsTop(t) && next == k.GiveUp(s.busy)
       case FinishPipeline(t) =>
         k.IsTop(t)
         && exists n :: 0 <= n < |k.frames| && next == k.Unwind(n + 1, s.busy) && Loses(Finish(s, t), k.Pop().frames, n)
       case DropHandle(a) =>
         exists n :: 0 <= n <= |k.frames| && next == k.Unwind(n, s.busy) && Loses(Release(s, a), k.frames, n)
       case LoseConnection => next == k.(lost := true)
  }

  // ---------- one step ----------

  /** The constructor has registered the object and its command has succeeded. */
  lemma PushRefines(s: Client, k: Stack, a: Addr, kind: Kind, after: Client)
    requires Implements(s, k) && a !in s.objects && (s.current.Some? ==> s.current.value in s.objects)
    requires Stackable(k.frames + [Frame(a, kind, k.View())], |k.frames|)
    requires after.current == Some(a) && after.objects == s.objects[a := Tx(kind, true, s.current, true)]
    requires Backed(after.server, k.Push(a, kind))
    ensures Implements(after, k.Push(a, kind))
  {
    ChainedPush(s, k.frames, a, Frame(a, kind, k.View()), after);
    OwnedPush(s, a, kind, after);
    RankedPush(s, a, Tx(kind, true, s.current, true), after);
  }

  lemma ConstructRefines(s: Client, k: Stack, a: Addr, kind: Kind)
    requires Implements(s, k) && a !in s.objects
    requires Stackable(k.frames + [Frame(a, kind, k.View())], |k.frames|)
    ensures var (after, ok) := Construct(s, a, kind);
            Implements(after, if ok then k.Push(a, kind) else k)
  {
    var (after, ok) := Construct(s, a, kind);
    var c := StartCommand(kind, a);
    ChainedIsStacked(s, k.frames);
    MayPush(s, k, Frame(a, kind, k.View()));
    if s.busy && c.Some? {
      assert after.objects == s.objects && after.server == s.server;
    } else {
      BackedPush(s.server, k, a, kind);
      assert after.server == ServeIfAny(s.server, c).0;
      if ok {
        PushRefines(s, k, a, kind, after);
      } else {
        assert after.objects == s.objects;
        SameClient(s, after, k, k);
      }
    }
  }

  lemma MayPush(s: Client, k: Stack, f: Frame)
    requires Chained(s, k.frames) && f.id !in s.objects
    requires Stackable(k.frames + [f], |k.frames|)
    ensures !InFrames(k.frames, f.id)
    ensures Starts(f.kind) ==> !InTx(k.frames)
    ensures f.kind.Nested? ==> InTx(k.frames)
    ensures s.current.Some? ==> s.current.value in s.objects
  {
    ChainedIsStacked(s, k.frames);
    forall i | 0 <= i < |k.frames| ensures k.frames[i].id != f.id {
      assert ChainedAt(s, k.frames, i);
    }
    var n := |k.frames|;
    if n > 0 {
      assert ChainedAt(s, k.frames, n - 1) && Stackable(k.frames, n - 1);
      assert (k.frames + [f])[n - 1] == k.frames[n - 1];
      if f.kind.Nested? {
        NestedInTx(k.frames, n - 1);
      }
    }
  }

  /** A change of one object's state that does not touch who owns what. */
  lemma OwnedUpdate(s: Client, t: Addr, tx: Tx, after: Client)
    requires Owned(s, None) && t in s.objects && after.objects == s.objects[t := tx]
    requires tx.previous == s.objects[t].previous && tx.held == s.objects[t].held
    ensures Owned(after, None)
  {
    forall b <- after.objects ensures Alive(after, b) {
      assert Alive(s, b);
      if !s.objects[b].held {
        var c :| c in s.objects && s.objects[c].previous == Some(b);
        assert c in after.objects && after.objects[c].previous == Some(b);
      }
    }
  }

  /** `commit` and `rollback` of the current transaction, whatever the server makes of them. */
  lemma EndRefines(s: Client, k: Stack, t: Addr, c: Option<Command>, next: Stack)
    requires Implements(s, k) && t in s.objects && s.current == Some(t)
    requires !s.objects[t].kind.Pipe?
    requires k.frames != [] && next.frames == k.frames[..|k.frames| - 1]
    requires Backed(Told(s, c), next)
    ensures Implements(End(s, t, c).0, next)
  {
    var after := End(s, t, c).0;
    TopIsCurrent(s, k.frames);
    assert after.objects == s.objects[t := s.objects[t].(connected := false)];
    ChainedPop(s, k.frames, t, after);
    OwnedUpdate(s, t, s.objects[t].(connected := false), after);
    RankedSub(s, after);
  }

  lemma CurrentIsTop(s: Client, k: Stack, t: Addr)
    requires Implements(s, k) && s.current == Some(t)
    ensures k.frames != [] && k.Top().id == t && t in s.objects && k.Top().kind == s.objects[t].kind
    ensures Stacked(k.frames) && s.objects[t].connected && Open(s.objects[t])
  {
    TopIsCurrent(s, k.frames);
    ChainedIsStacked(s, k.frames);
  }

  lemma CommitRefines(s: Client, k: Stack, t: Addr, refused: bool)
    requires Implements(s, k) && s.current == Some(t)
    requires t in s.objects && IsTransaction(s.objects[t].kind)
    ensures k.IsTop(t)
    ensures Implements(Commit(s, t, refused).0, if s.busy then k.Abandon() else k.Keep(refused))
  {
    CurrentIsTop(s, k, t);
    if s.busy {
      BackedAbandon(s.server, k);
    } else {
      BackedKeep(s.server, k, refused);
    }
    EndRefines(s, k, t, CommitCommand(k.Top().kind, t, refused), if s.busy then k.Abandon() else k.Keep(refused));
  }

  lemma RollbackRefines(s: Client, k: Stack, t: Addr)
    requires Implements(s, k) && s.current == Some(t)
    requires t in s.objects && IsTransaction(s.objects[t].kind)
    ensures k.IsTop(t) && Implements(Rollback(s, t).0, k.GiveUp(s.busy))
  {
    CurrentIsTop(s, k, t);
    BackedGiveUp(s, k);
    EndRefines(s, k, t, RollbackCommand(k.Top().kind, t), k.GiveUp(s.busy));
  }

  /** A handle is gone, or a pipeline has let go of its parent: one object may lack an owner. */
  lemma OwnedBut(s: Client, a: Addr, tx: Tx, but: Option<Addr>, after: Client)
    requires Owned(s, None) && a in s.objects && after.objects == s.objects[a := tx]
    requires if tx.previous == s.objects[a].previous then but == Some(a)
             else tx.previous == None && but == s.objects[a].previous && tx.held == s.objects[a].held
    ensures Owned(after, but)
  {
    forall b <- after.objects | Some(b) != but ensures Alive(after, b) {
      assert Alive(s, b);
      if !after.objects[b].held {
        var c :| c in s.objects && s.objects[c].previous == Some(b);
        assert c in after.objects && after.objects[c].previous == Some(b);
      }
    }
  }

  /** The end of a call that leaves one object, perhaps, without an owner. */
  lemma CollectsUnkept(s: Client, k: Stack, a: Option<Addr>) returns (n: nat, next: Stack)
    requires Related(s, k, a) && Ranked(s)
    ensures n <= |k.frames| && next == k.Unwind(n, s.busy) && Loses(s, k.frames, n)
    ensures Implements(Collect(s, a), next)
  {
    var end;
    n, end, next := CollectRefines(s, k, a);
    CollectRemoves(s, a, end);
    RankedSub(s, end);
    UnwindFrames(k, n, s.busy);
    CollectLoses(s, k.frames, a, end, n);
  }

  /** A pipeline that is finished is no longer open, and does not point to its parent. */
  lemma FinishRelates(s: Client, k: Stack, t: Addr, after: Client)
    requires Implements(s, k) && s.current == Some(t) && t in s.objects && s.objects[t].kind.Pipe?
    requires after == Finish(s, t)
    ensures k.IsTop(t) && k.GiveUp(s.busy) == k.Pop()
    ensures Related(after, k.Pop(), s.objects[t].previous) && Ranked(after)
  {
    CurrentIsTop(s, k, t);
    ChainedPop(s, k.frames, t, after);
    OwnedBut(s, t, s.objects[t].(previous := None), s.objects[t].previous, after);
    BackedGiveUp(s, k);
    RankedSub(s, after);
  }

  lemma FinishRefines(s: Client, k: Stack, t: Addr) returns (n: nat, next: Stack)
    requires Implements(s, k) && s.current == Some(t) && t in s.objects && s.objects[t].kind.Pipe?
    ensures k.IsTop(t) && 0 <= n < |k.frames| && next == k.Unwind(n + 1, s.busy)
    ensures Loses(Finish(s, t), k.Pop().frames, n)
    ensures Implements(Collect(Finish(s, t), s.objects[t].previous), next)
  {
    FinishRelates(s, k, t, Finish(s, t));
    n, next := CollectsUnkept(Finish(s, t), k.Pop(), s.objects[t].previous);
  }

  /** A handle is gone, and nothing else has changed. */
  lemma ReleaseRelates(s: Client, k: Stack, a: Addr, after: Client)
    requires Implements(s, k) && a in s.objects && after == Release(s, a)
    ensures Related(after, k, Some(a)) && Ranked(after)
  {
    forall i | 0 <= i < |k.frames| ensures ChainedAt(after, k.frames, i) {
      assert ChainedAt(s, k.frames, i);
    }
    forall b <- after.objects | Open(after.objects[b]) ensures InFrames(k.frames, b) {
      assert Open(s.objects[b]);
    }
    OwnedBut(s, a, s.objects[a].(held := false), Some(a), after);
    RankedSub(s, after);
  }

  lemma ReleaseRefines(s: Client, k: Stack, a: Addr) returns (n: nat, next: Stack)
    requires Implements(s, k) && a in s.objects
    ensures n <= |k.frames| && next == k.Unwind(n, s.busy) && Loses(Release(s, a), k.frames, n)
    ensures Implements(Collect(Release(s, a), Some(a)), next)
  {
    ReleaseRelates(s, k, a, Release(s, a));
    n, next := CollectsUnkept(Release(s, a), k, Some(a));
  }

  /** The calls after which objects may be without an owner. */
  predicate Loosens(e: Event) { e.DropHandle? || e.FinishPipeline? }

  /** The connection before such objects are destroyed. */
  function Loosened(s: Client, e: Event): Client
    requires Enabled(s, e) && Loosens(e)
  {
    if e.DropHandle? then Release(s, e.a) else Finish(s, e.t)
  }

  /** Such a call leaves the oldest frames: those that somebody keeps, and not the pipeline. */
  ghost predicate Leaves(s: Client, k: Stack, e: Event, m: nat)
    requires Enabled(s, e) && Loosens(e)
  {
    m <= |k.frames| && forall i :: 0 <= i < |k.frames| && (e.FinishPipeline? ==> k.frames[i].id != e.t) ==>
      (i < m <==> Kept(Loosened(s, e), k.frames[i].id))
  }

  lemma FinishLeaves(s: Client, k: Stack, e: Event, n: nat)
    requires Enabled(s, e) && e.FinishPipeline? && k.IsTop(e.t) && n < |k.frames|
    requires Loses(Finish(s, e.t), k.Pop().frames, n)
    ensures Leaves(s, k, e, |k.frames| - n - 1)
  {
    var frames := k.Pop().frames;
    forall i | 0 <= i < |k.frames| - 1 ensures i < |k.frames| - n - 1 <==> Kept(Loosened(s, e), k.frames[i].id) {
      assert frames[i] == k.frames[i];
    }
  }

  lemma LoosenRefines(s: Client, k: Stack, e: Event) returns (m: nat, next: Stack)
    requires Implements(s, k) && Enabled(s, e) && InOrder(s, e) && Loosens(e)
    ensures Leaves(s, k, e, m) && next == k.Unwind(|k.frames| - m, s.busy) && next.frames == k.frames[..m]
    ensures Implements(Step(s, e).0, next)
  {
    var n;
    if e.DropHandle? {
      n, next := ReleaseRefines(s, k, e.a);
    } else {
      CurrentIsTop(s, k, e.t);
      n, next := FinishRefines(s, k, e.t);
      FinishLeaves(s, k, e, n);
      n := n + 1;
    }
    m := |k.frames| - n;
    UnwindFrames(k, n, s.busy);
  }

  lemma SendRefines(s: Client, k: Stack, effect: Option<Db>)
    requires Implements(s, k)
    ensures Implements(s.(server := Serve(s.server, Statement(effect)).0, busy := true), k.Write(effect))
  {
    SameClient(s, s.(server := Serve(s.server, Statement(effect)).0, busy := true), k, k.Write(effect));
  }

  lemma SameClient(s: Client, after: Client, k: Stack, next: Stack)
    requires Implements(s, k) && after.current == s.current && after.objects == s.objects
    requires next.frames == k.frames && Backed(after.server, next)
    ensures Implements(after, next)
  {
    forall i | 0 <= i < |k.frames| ensures ChainedAt(after, k.frames, i) {
      assert ChainedAt(s, k.frames, i);
    }
    forall b <- after.objects ensures Alive(after, b) {
      assert Alive(s, b);
    }
    RankedSub(s, after);
  }

  // ---------- which calls succeed ----------

  /** `check_current_transaction` holds for the top of the stack. */
  lemma IsTopIff(s: Client, k: Stack, t: Addr)
    requires Implements(s, k) && t in s.objects
    ensures k.IsTop(t) <==> IsCurrent(s, t)
    ensures k.IsTop(t) <==> s.current == Some(t)
    ensures k.IsTop(t) ==> k.Top().kind == s.objects[t].kind && Open(s.objects[t])
  {
    if k.frames != [] {
      TopIsCurrent(s, k.frames);
    }
  }

  /** A constructor fails exactly when its command cannot be sent, or finds a failed block. */
  lemma ConstructSucceeds(s: Client, k: Stack, a: Addr, kind: Kind)
    requires Implements(s, k) && a !in s.objects
    requires Stackable(k.frames + [Frame(a, kind, k.View())], |k.frames|)
    ensures Construct(s, a, kind).1 <==>
              (Starts(kind) || kind.Nested? ==> !s.busy && !k.lost && !(k.InTransaction() && k.failed))
  {
    MayPush(s, k, Frame(a, kind, k.View()));
  }

  lemma CreationSucceeds(s: Client, k: Stack, e: Event)
    requires Implements(s, k) && Enabled(s, e)
    requires e.Opening? || e.Subtransaction? || e.StartPipeline? || e.StartGuard?
    ensures Step(s, e).1 == Succeeds(k, s.busy, e)
  {
    match e
    case Opening(a, kind) =>
      if k.frames == [] {
        ConstructSucceeds(s, k, a, kind);
      }
    case Subtransaction(t, a) =>
      IsTopIff(s, k, t);
      if k.IsTop(t) {
        TopIsCurrent(s, k.frames);
        ConstructSucceeds(s, k, a, if s.objects[t].kind.Direct? then TopSub else Nested);
      }
    case StartPipeline(t, a) => IsTopIff(s, k, t);
    case StartGuard(a) =>
  }

  /** A top transaction that the server knows about has its block, and its own savepoint. */
  lemma {:induction false} TopOnServer(s: Client, k: Stack, t: Addr)
    requires Implements(s, k) && k.IsTop(t) && (k.Top().kind.Nested? || Starts(k.Top().kind)) && !k.lost
    ensures k.InTransaction() && s.server.block.InBlock? && s.server.block.failed == k.failed
    ensures k.Top().kind.Nested? ==> Lookup(s.server.block.savepoints, t) >= 0
  {
    ChainedIsStacked(s, k.frames);
    NestedInTx(k.frames, |k.frames| - 1);
    assert k.frames[|k.frames| - 1] == k.Top();
  }

  lemma EndSucceeds(s: Client, k: Stack, e: Event)
    requires Implements(s, k) && Enabled(s, e) && InOrder(s, e) && (e.CommitBy? || e.RollbackBy?)
    ensures Step(s, e).1 == Succeeds(k, s.busy, e)
  {
    IsTopIff(s, k, e.t);
    if !k.Top().kind.Direct? && !k.lost {
      TopOnServer(s, k, e.t);
    }
  }

  /** The plain stack knows which calls return without an exception. */
  lemma StepSucceeds(s: Client, k: Stack, e: Event)
    requires Implements(s, k) && Enabled(s, e) && InOrder(s, e)
    ensures Step(s, e).1 == Succeeds(k, s.busy, e)
  {
    match e
    case CommitBy(_, _) => EndSucceeds(s, k, e);
    case RollbackBy(_) => EndSucceeds(s, k, e);
    case Send(t, _) => IsTopIff(s, k, t);
    case FetchResult(t) => IsTopIff(s, k, t);
    case FinishPipeline(t) => IsTopIff(s, k, t);
    case DropHandle(_) =>
    case LoseConnection =>
    case _ => CreationSucceeds(s, k, e);
  }

  /** Every call that respects the order is, on the plain stack, the step that `StackStep` says. */
  lemma StepRefines(s: Client, k: Stack, e: Event) returns (next: Stack)
    requires Implements(s, k) && Enabled(s, e) && InOrder(s, e)
    ensures Implements(Step(s, e).0, next) && StackStep(s, k, e, Step(s, e).1, next)
  {
    var (after, ok) := Step(s, e);
    StepSucceeds(s, k, e);
    match e
    case CommitBy(t, refused) =>
      CommitRefines(s, k, t, refused);
      next := if s.busy then k.Abandon() else k.Keep(refused);
    case RollbackBy(t) =>
      RollbackRefines(s, k, t);
      next := k.GiveUp(s.busy);
    case FinishPipeline(t) =>
      CurrentIsTop(s, k, t);
      var n;
      n, next := FinishRefines(s, k, t);
    case DropHandle(a) =>
      var n;
      n, next := ReleaseRefines(s, k, a);
    case LoseConnection =>
      next := k.(lost := true);
      SameClient(s, after, k, next);
    case FetchResult(_) =>
      next := k;
      SameClient(s, after, k, next);
    case Send(_, effect) =>
      SendRefines(s, k, effect);
      next := if ok then k.Write(effect) else k;
    case _ => next := CreateRefines(s, k, e);
  }

  /** The calls that create an object. */
  lemma CreateRefines(s: Client, k: Stack, e: Event) returns (next: Stack)
    requires Implements(s, k) && Enabled(s, e)
    requires e.Opening? || e.Subtransaction? || e.StartPipeline? || e.StartGuard?
    ensures Implements(Step(s, e).0, next) && StackStep(s, k, e, Step(s, e).1, next)
  {
    var (after, ok) := Step(s, e);
    CreationSucceeds(s, k, e);
    next := k;
    var kind :=
      match e
      case Opening(_, kind) => kind
      case Subtransaction(t, _) => if s.objects[t].kind.Direct? then TopSub else Nested
      case StartPipeline(_, _) => Pipe
      case _ => Guard;
    if after != s || ok {
      if s.current.Some? {
        CurrentIsTop(s, k, s.current.value);
      }
      ConstructRefines(s, k, e.a, kind);
      if ok {
        next := k.Push(e.a, kind);
      }
    }
  }
}
