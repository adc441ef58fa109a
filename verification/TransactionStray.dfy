/**
  Blocks that are left to nobody: when they arise, that nothing else keeps a rollback from restoring,
  and what becomes of the work in them.
 */
module TransactionStray {
  import opened Basics
  import opened SavepointServer
  import opened Transactions
  import opened TransactionStack
  import opened TransactionOwners
  import opened TransactionRefinement
  import opened TransactionRuns
  import opened TransactionTheorems
  import opened TransactionOutcomes

  /** An unfinished object started a block. */
  predicate HasStarter(s: Client) {
    exists a <- s.objects :: Open(s.objects[a]) && Starts(s.objects[a].kind)
  }

  lemma HasStarterIff(s: Client, frames: seq<Frame>)
    requires Chained(s, frames)
    ensures HasStarter(s) <==> InTx(frames)
  {
    if HasStarter(s) {
      var a :| a in s.objects && Open(s.objects[a]) && Starts(s.objects[a].kind);
      assert InFrames(frames, a);
      var i :| 0 <= i < |frames| && frames[i].id == a;
      assert ChainedAt(s, frames, i);
    }
    if InTx(frames) {
      var i :| 0 <= i < |frames| && Starts(frames[i].kind);
      assert ChainedAt(s, frames, i);
    }
  }

  /** The transaction that started the block ends while a result is outstanding. */
  predicate Abandons(s: Client, e: Event)
    requires Enabled(s, e)
  {
    s.busy && HasStarter(s) && !HasStarter(Step(s, e).0)
  }

  lemma {:induction false} UnwindStrays(k: Stack, n: nat, busy: bool)
    requires n <= |k.frames| && Stacked(k.frames) && !k.stray
    ensures k.Unwind(n, busy).stray <==> busy && InTx(k.frames) && !InTx(k.Unwind(n, busy).frames)
    decreases n
  {
    if n > 0 {
      SplitTop(k);
      StackedPop(k);
      if Starts(k.Top().kind) {
        OneStart(k.frames);
        if busy {
          StaysStray(k.GiveUp(busy), n - 1);
        } else {
          UnwindStrays(k.GiveUp(busy), n - 1, busy);
        }
      } else {
        UnwindStrays(k.GiveUp(busy), n - 1, busy);
      }
    }
  }

  lemma StackedPop(k: Stack)
    requires k.frames != [] && Stacked(k.frames)
    ensures Stacked(k.Pop().frames)
  {
    forall i | 0 <= i < |k.frames| - 1 ensures Stackable(k.Pop().frames, i) {
      assert Stackable(k.frames, i);
    }
  }

  lemma {:induction false} StaysStray(k: Stack, n: nat)
    requires n <= |k.frames| && !InTx(k.frames) && k.stray
    ensures k.Unwind(n, true).stray && !InTx(k.Unwind(n, true).frames)
    decreases n
  {
    if n > 0 {
      SplitTop(k);
      StaysStray(k.GiveUp(true), n - 1);
    }
  }

  lemma PushStrays(k: Stack, a: Addr, kind: Kind)
    ensures k.Push(a, kind).stray == k.stray && (InTx(k.frames) ==> InTx(k.Push(a, kind).frames))
  {
    InTxOfPrefix(k.frames, Frame(a, kind, k.View()));
  }

  lemma CommitStrays(k: Stack, busy: bool, refused: bool)
    requires k.frames != [] && Stacked(k.frames) && !k.stray
    ensures var next := if busy then k.Abandon() else k.Keep(refused);
            next.stray <==> busy && InTx(k.frames) && !InTx(next.frames)
  {
    SplitTop(k);
    if Starts(k.Top().kind) {
      OneStart(k.frames);
    }
  }

  /** The same on the plain stack. */
  lemma StackStrays(s: Client, k: Stack, e: Event, ok: bool, next: Stack)
    requires Enabled(s, e) && StackStep(s, k, e, ok, next) && Stacked(k.frames) && !k.stray
    ensures next.stray <==> s.busy && InTx(k.frames) && !InTx(next.frames)
  {
    match e
    case CommitBy(t, refused) => CommitStrays(k, s.busy, refused);
    case RollbackBy(t) =>
      assert next == k.Unwind(1, s.busy);
      UnwindStrays(k, 1, s.busy);
    case FinishPipeline(t) =>
      var n :| 0 <= n < |k.frames| && next == k.Unwind(n + 1, s.busy) && Loses(Finish(s, t), k.Pop().frames, n);
      UnwindStrays(k, n + 1, s.busy);
    case DropHandle(a) =>
      var n :| 0 <= n <= |k.frames| && next == k.Unwind(n, s.busy) && Loses(Release(s, a), k.frames, n);
      UnwindStrays(k, n, s.busy);
    case Opening(a, kind) => PushStrays(k, a, kind);
    case Subtransaction(_, a) =>
      PushStrays(k, a, TopSub);
      PushStrays(k, a, Nested);
    case StartPipeline(_, a) => PushStrays(k, a, Pipe);
    case StartGuard(a) => PushStrays(k, a, Guard);
    case _ =>
  }

  /** A block becomes stray exactly when the transaction that started it ends while a result is outstanding. */
  lemma StepStrays(s: Client, k: Stack, e: Event, next: Stack)
    requires Implements(s, k) && Enabled(s, e) && InOrder(s, e) && !k.stray
    requires Implements(Step(s, e).0, next) && StackStep(s, k, e, Step(s, e).1, next)
    ensures next.stray <==> Abandons(s, e)
  {
    ChainedIsStacked(s, k.frames);
    HasStarterIff(s, k.frames);
    HasStarterIff(Step(s, e).0, next.frames);
    StackStrays(s, k, e, Step(s, e).1, next);
  }

  /** No step of the run abandons a block. */
  predicate NeverAbandons(s: Client, es: seq<Event>)
    requires ValidRun(s, es)
    decreases |es|
  {
    es == [] || (!Abandons(s, es[0]) && NeverAbandons(Step(s, es[0]).0, es[1..]))
  }

  lemma {:induction false} NeverStray(s: Client, k: Stack, es: seq<Event>) returns (end: Stack)
    requires Implements(s, k) && !k.stray && ValidRun(s, es) && NeverAbandons(s, es)
    ensures Implements(Run(s, es), end) && !end.stray
    decreases |es|
  {
    end := k;
    if es != [] {
      var next := StepRefines(s, k, es[0]);
      StepStrays(s, k, es[0], next);
      end := NeverStray(Step(s, es[0]).0, next, es[1..]);
    }
  }

  lemma CleanUnlessStray(s: Client, k: Stack, e: Event, a: Addr)
    requires Implements(s, k) && !k.stray && Enabled(s, e) && Creates(s, e, a)
    ensures Clean(s, e)
  {
    if !MakesNested(s, e) {
      var next, kind := CreatedFrame(s, k, e, a);
      PushedFrame(k, a, kind, next);
      OneStart(next.frames);
    }
  }

  /** After a run that abandons no block, every transaction starts clean: rolling it back restores. */
  lemma {:induction false} CleanUnlessAbandoned(db: Db, es: seq<Event>, e: Event, a: Addr, s: Client)
    requires ValidRun(Connected(db), es) && NeverAbandons(Connected(db), es) && s == After(db, es)
    requires Enabled(s, e) && Creates(s, e, a)
    ensures Clean(s, e)
  {
    ConnectedIsEmpty(db);
    var k := NeverStray(Connected(db), EmptyStack(db), es);
    CleanUnlessStray(s, k, e, a);
  }

  /**
    The work in a stray block is not lost: the next transaction starts within the block, whatever
    the client believes, and its commit makes the abandoned work permanent.
   */
  lemma StrayWorkIsCommitted(s: Client, k: Stack, a: Addr)
    requires Implements(s, k) && s.current == None && a !in s.objects
    requires !s.busy && s.server.block.InBlock? && !s.server.block.failed
    ensures var (begun, ok) := Step(s, Opening(a, TopLevel));
            && ok && Enabled(begun, CommitBy(a, false))
            && Step(begun, CommitBy(a, false)).1
            && Step(begun, CommitBy(a, false)).0.server.committed == s.server.block.working
  {
    var begun := Step(s, Opening(a, TopLevel)).0;
    var next := StepRefines(s, k, Opening(a, TopLevel));
    CommitOutcome(begun, next, a, false);
  }
}
