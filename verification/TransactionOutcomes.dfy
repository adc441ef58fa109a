/**
  How transactions end: by `commit`, by `rollback`, by the destructor or, for pipelines, by `finish`;
  in a failed block, on a lost connection, with a result outstanding, and out of order.
 */
module TransactionOutcomes {
  import opened Basics
  import opened SavepointServer
  import opened Transactions
  import opened TransactionStack
  import opened TransactionOwners
  import opened TransactionRefinement
  import opened TransactionRuns
  import opened TransactionTheorems

  /** A command can be sent. */
  predicate Heard(s: Client) { !s.busy && !s.server.block.Lost? }

  /** The object has ended, and the one below it is the current one. */
  predicate Ended(s: Client, t: Addr, after: Client)
    requires t in s.objects
  {
    after.current == s.objects[t].previous && !IsOpen(after, t)
  }

  // ---------- what the server makes of it ----------

  lemma InBlockAtTop(s: Client, k: Stack, t: Addr)
    requires Implements(s, k) && s.current == Some(t) && t in s.objects
    requires Starts(s.objects[t].kind) || s.objects[t].kind.Nested?
    ensures k.IsTop(t) && k.Top().kind == s.objects[t].kind
    ensures !s.server.block.Lost? ==> s.server.block.InBlock? && SavepointsFound(s.server.block.savepoints, k.frames)
  {
    CurrentIsTop(s, k, t);
    NestedInTx(k.frames, |k.frames| - 1);
  }

  /**
    Committing the transaction that started the block: the call returns without an exception even
    when the block has failed, and then nothing is committed. What was done becomes permanent
    exactly when the command can be sent, the block has not failed and the server does not refuse.
    While a result is outstanding the call throws, and leaves the block to nobody.
   */
  lemma CommitOutcome(s: Client, k: Stack, t: Addr, refused: bool)
    requires Implements(s, k) && s.current == Some(t) && t in s.objects && Starts(s.objects[t].kind)
    ensures Heard(s) ==> s.server.block.InBlock?
    ensures var (after, ok) := Commit(s, t, refused);
            && (ok <==> Heard(s) && (s.server.block.failed || !refused))
            && after.server == (if !Heard(s) then s.server
                                else if s.server.block.failed || refused then Server(s.server.committed, Idle)
                                else Server(s.server.block.working, Idle))
            && (after.server.block.InBlock? <==> s.busy && !s.server.block.Lost?)
            && Ended(s, t, after)
  {
    InBlockAtTop(s, k, t);
  }

  /** A nested transaction leaves its work to its parent; in a failed block the commit throws. */
  lemma NestedCommitOutcome(s: Client, k: Stack, t: Addr, refused: bool)
    requires Implements(s, k) && s.current == Some(t) && t in s.objects && s.objects[t].kind.Nested?
    ensures Heard(s) ==> s.server.block.InBlock?
    ensures var (after, ok) := Commit(s, t, refused);
            && (ok <==> Heard(s) && !s.server.block.failed)
            && after.server.View() == s.server.View() && after.server.committed == s.server.committed
            && (s.server.block.InBlock? ==>
                  after.server.block.InBlock? && after.server.block.failed == s.server.block.failed)
            && Ended(s, t, after)
  {
    InBlockAtTop(s, k, t);
    assert k.frames[|k.frames| - 1] == k.Top();
  }

  /** Rolling back the transaction that started the block ends it, unless the command cannot be sent. */
  lemma RollbackOutcome(s: Client, k: Stack, t: Addr)
    requires Implements(s, k) && s.current == Some(t) && t in s.objects && Starts(s.objects[t].kind)
    ensures var (after, ok) := Rollback(s, t);
            && (ok <==> Heard(s))
            && after.server == (if Heard(s) then Server(s.server.committed, Idle) else s.server)
            && (after.server.block.InBlock? <==> s.busy && !s.server.block.Lost?)
            && Ended(s, t, after)
  {
    InBlockAtTop(s, k, t);
  }

  /** Rolling back a nested transaction goes back to its savepoint, unless the command cannot be sent. */
  lemma {:induction false} NestedRollbackOutcome(s: Client, k: Stack, t: Addr)
    requires Implements(s, k) && s.current == Some(t) && t in s.objects && s.objects[t].kind.Nested?
    ensures Heard(s) ==> s.server.block.InBlock? && Lookup(s.server.block.savepoints, t) >= 0
    ensures var (after, ok) := Rollback(s, t);
            && (ok <==> Heard(s)) && Ended(s, t, after)
            && after.server.committed == s.server.committed
            && (if !Heard(s) then after.server == s.server
                else after.server.block.InBlock? && !after.server.block.failed
                     && after.server.View() == s.server.block.savepoints[Lookup(s.server.block.savepoints, t)].saved)
  {
    InBlockAtTop(s, k, t);
    assert k.frames[|k.frames| - 1] == k.Top();
  }

  /** The destructor of the current transaction leaves the server, and the connection, as `rollback` does. */
  lemma DestructorIsRollback(s: Client, k: Stack, a: Addr)
    requires Implements(s, k) && s.current == Some(a) && a in s.objects && IsTransaction(s.objects[a].kind)
    ensures Destroy(s, a).server == Rollback(s, a).0.server && Destroy(s, a).current == Rollback(s, a).0.current
    ensures Ended(s, a, Destroy(s, a))
  {
    CurrentIsTop(s, k, a);
    DestroyOpen(s, k, a);
  }

  /** The destructor of the transaction that started a block ends it exactly when no result is outstanding. */
  lemma DestructorEndsBlockIffIdle(s: Client, k: Stack, a: Addr)
    requires Implements(s, k) && s.current == Some(a) && a in s.objects && Starts(s.objects[a].kind)
    ensures Destroy(s, a).server == if Heard(s) then Server(s.server.committed, Idle) else s.server
    ensures Destroy(s, a).server.block.InBlock? <==> s.busy && !s.server.block.Lost?
  {
    DestructorIsRollback(s, k, a);
    RollbackOutcome(s, k, a);
  }

  /** The destructor of a nested transaction goes back to its savepoint exactly when no result is outstanding. */
  lemma {:induction false} NestedDestructorOutcome(s: Client, k: Stack, a: Addr)
    requires Implements(s, k) && s.current == Some(a) && a in s.objects && s.objects[a].kind.Nested?
    ensures Destroy(s, a).server == if s.busy then s.server else Serve(s.server, RollbackTo(a)).0
    ensures Heard(s) ==> s.server.block.InBlock? && Lookup(s.server.block.savepoints, a) >= 0
    ensures Heard(s) ==>
              Destroy(s, a).server.View() == s.server.block.savepoints[Lookup(s.server.block.savepoints, a)].saved
  {
    DestructorIsRollback(s, k, a);
    NestedRollbackOutcome(s, k, a);
  }

  // ---------- out of order ----------

  /** Everything but the object at `t` is as it was. */
  predicate OthersUntouched(s: Client, t: Addr, after: Client) {
    && after.server == s.server && after.busy == s.busy && after.objects.Keys == s.objects.Keys
    && forall b <- s.objects :: b != t ==> after.objects[b] == s.objects[b]
  }

  /**
    `commit` and `rollback` of an object that is not the current one throw before anything is sent:
    the server, the outstanding result and all other objects stay as they are, in every state.
   */
  lemma OutOfOrderIsSilent(s: Client, e: Event)
    requires Enabled(s, e) && (e.CommitBy? || e.RollbackBy?) && s.current != Some(e.t)
    ensures !Step(s, e).1 && OthersUntouched(s, e.t, Step(s, e).0) && Ended(s, e.t, Step(s, e).0)
  {
  }

  /** Only the current object can make the server do anything at all. */
  lemma OnlyTheCurrentSpeaks(s: Client, e: Event)
    requires Enabled(s, e) && (e.Send? || e.CommitBy? || e.RollbackBy? || e.Subtransaction? || e.StartPipeline?)
    requires Step(s, e).0.server != s.server
    ensures s.current == Some(e.t) && s.objects[e.t].connected && !s.busy
  {
    if (e.CommitBy? || e.RollbackBy?) && s.current != Some(e.t) {
      OutOfOrderIsSilent(s, e);
    }
  }

  /** A statement, a result or an object that is refused: nothing has changed. */
  lemma RefusedChangesNothing(s: Client, e: Event)
    requires Enabled(s, e) && !Step(s, e).1
    requires e.Send? || e.FetchResult? || e.Opening? || e.Subtransaction? || e.StartPipeline? || e.StartGuard?
    ensures Step(s, e).0 == s
  {
    assert Step(s, e).0.objects == s.objects;
  }

  /** A result is outstanding exactly after a statement was sent, until it is fetched or the connection is lost. */
  lemma BusyAfter(s: Client, e: Event)
    requires Enabled(s, e)
    ensures Step(s, e).0.busy <==>
              !e.LoseConnection? && (if s.busy then !(e.FetchResult? && Step(s, e).1) else e.Send? && Step(s, e).1)
  {
    match e
    case FinishPipeline(t) => CollectKeepsBusy(Finish(s, t), s.objects[t].previous);
    case DropHandle(a) => CollectKeepsBusy(Release(s, a), Some(a));
    case _ =>
  }

  lemma DestroyKeepsBusy(s: Client, a: Addr)
    requires a in s.objects
    ensures Destroy(s, a).busy == s.busy
  {
  }

  lemma {:induction false} CollectKeepsBusy(s: Client, a: Option<Addr>)
    ensures Collect(s, a).busy == s.busy
    decreases |s.objects|
  {
    if a.Some? && a.value in s.objects && !Alive(s, a.value) {
      var after := Destroy(s, a.value);
      DestroyKeepsBusy(s, a.value);
      FewerObjects(s, after, a.value);
      CollectKeepsBusy(after, s.objects[a.value].previous);
    }
  }

  /** A younger unfinished object that points to one that has ended is in no chain. */
  lemma YoungerIsStranded(s: Client, u: Addr, t: Addr, frames: seq<Frame>)
    requires IsOpen(s, u) && s.objects[u].previous == Some(t) && !IsOpen(s, t)
    ensures !Chained(s, frames)
  {
    if Chained(s, frames) {
      assert InFrames(frames, u);
      var j :| 0 <= j < |frames| && frames[j].id == u;
      assert ChainedAt(s, frames, j);
      if !ChainedAt(s, frames, j - 1) {
        assert false;
      }
    }
  }

  /** There is a younger one, unless the object is the current one. */
  lemma OneAbove(s: Client, k: Stack, t: Addr) returns (u: Addr)
    requires Implements(s, k) && IsOpen(s, t) && s.current != Some(t)
    ensures IsOpen(s, u) && u != t && s.objects[u].previous == Some(t)
  {
    assert InFrames(k.frames, t);
    var i :| 0 <= i < |k.frames| && k.frames[i].id == t;
    assert i + 1 < |k.frames| && ChainedAt(s, k.frames, i + 1);
    u := k.frames[i + 1].id;
  }

  ghost predicate HasChain(s: Client) { exists frames :: Chained(s, frames) }

  /** Ending an object keeps the unfinished ones in one chain exactly when it is the current one. */
  lemma EndKeepsChainIffCurrent(s: Client, k: Stack, t: Addr, c: Option<Command>)
    requires Implements(s, k) && IsOpen(s, t) && !s.objects[t].kind.Pipe?
    ensures HasChain(End(s, t, c).0) <==> s.current == Some(t)
  {
    var after := End(s, t, c).0;
    assert after.objects == s.objects[t := s.objects[t].(connected := false)];
    if s.current == Some(t) {
      TopIsCurrent(s, k.frames);
      ChainedPop(s, k.frames, t, after);
    } else {
      var u := OneAbove(s, k, t);
      forall frames ensures !Chained(after, frames) {
        YoungerIsStranded(after, u, t, frames);
      }
    }
  }

  /**
    `commit` of an unfinished transaction keeps the unfinished objects in one chain exactly when
    it is the current one: otherwise the exception is thrown, but the object is reset all the same.
   */
  lemma CommitKeepsChainIffCurrent(s: Client, k: Stack, t: Addr, refused: bool)
    requires Implements(s, k) && Enabled(s, CommitBy(t, refused))
    ensures HasChain(Commit(s, t, refused).0) <==> s.current == Some(t)
  {
    EndKeepsChainIffCurrent(s, k, t, CommitCommand(s.objects[t].kind, t, refused));
  }

  /** So does `rollback`. */
  lemma RollbackKeepsChainIffCurrent(s: Client, k: Stack, t: Addr)
    requires Implements(s, k) && Enabled(s, RollbackBy(t))
    ensures HasChain(Rollback(s, t).0) <==> s.current == Some(t)
  {
    EndKeepsChainIffCurrent(s, k, t, RollbackCommand(s.objects[t].kind, t));
  }

  /** Ranks fall along a path of owners. */
  lemma {:induction false} PathDescends(s: Client, rank: map<Addr, nat>, path: seq<Addr>, a: Addr, i: nat)
    requires Owning(s, path, a) && RankedBy(s, rank) && i < |path|
    ensures i < |path| - 1 ==> rank[path[i]] > rank[a]
    decreases |path| - i
  {
    if i < |path| - 1 {
      PathDescends(s, rank, path, a, i + 1);
    }
  }

  /** Finishing a pipeline does not take away the owners of what is younger. */
  lemma YoungerIsKept(s: Client, k: Stack, t: Addr, u: Addr)
    requires Implements(s, k) && t in s.objects && u in s.objects && s.objects[u].previous == Some(t) && u != t
    ensures Kept(Finish(s, t), u)
  {
    var rank :| RankedBy(s, rank);
    AliveIsKept(s, rank, u);
    var path :| Owning(s, path, u);
    forall i | 0 <= i < |path| ensures path[i] != t {
      PathDescends(s, rank, path, u, i);
    }
    assert Owning(Finish(s, t), path, u);
  }

  /**
    `finish` does not look at the order at all: the chain is kept exactly when the pipeline is the
    current one, or has ended before.
   */
  lemma FinishKeepsChainIffCurrent(s: Client, k: Stack, t: Addr)
    requires Implements(s, k) && Enabled(s, FinishPipeline(t))
    ensures HasChain(Step(s, FinishPipeline(t)).0) <==> s.current == Some(t) || !IsOpen(s, t)
  {
    var after := Step(s, FinishPipeline(t)).0;
    if !IsOpen(s, t) {
      assert Chained(after, k.frames);
    } else if s.current == Some(t) {
      var n, next := FinishRefines(s, k, t);
      assert Chained(after, next.frames);
    } else {
      var u := OneAbove(s, k, t);
      YoungerIsKept(s, k, t, u);
      CollectRemoves(Finish(s, t), s.objects[t].previous, after);
      forall frames ensures !Chained(after, frames) {
        YoungerIsStranded(after, u, t, frames);
      }
    }
  }
}
