/**
  The same calls as methods that change the fields of a connection and of its transaction objects
  one after the other. Every method is the step of the state machine, and keeps the relation to
  the plain stack.
 */
module TransactionSession {
  import opened Basics
  import opened SavepointServer
  import opened T = Transactions
  import opened TransactionStack
  import opened TransactionRuns
  import opened TransactionTheorems

  class Session {
    var current: Option<Addr>
    var objects: map<Addr, Tx>
    var busy: bool
    var server: Server
    ghost var stack: Stack

    function State(): Client
      reads this
    {
      Client(current, objects, busy, server)
    }

    ghost predicate Valid()
      reads this
    {
      Implements(State(), stack)
    }

    constructor (db: Db)
      ensures State() == Connected(db) && stack == EmptyStack(db) && Valid()
    {
      current, objects, busy, server := None, map[], false, Server(db, Idle);
      stack := EmptyStack(db);
      ConnectedIsEmpty(db);
    }

    method Execute(c: Command) returns (ok: bool)
      modifies this`server
      ensures (State(), ok) == T.Execute(old(State()), c)
    {
      ok := false;
      if !busy {
        var answer := Serve(server, c);
        server := answer.0;
        ok := answer.1;
      }
    }

    method ExecuteIfAny(c: Option<Command>) returns (ok: bool)
      modifies this`server
      ensures (State(), ok) == T.ExecuteIfAny(old(State()), c)
    {
      ok := true;
      if c.Some? {
        ok := Execute(c.value);
      }
    }

    /** The constructors: a failing command runs the destructors of the base classes. */
    method Construct(a: Addr, kind: Kind) returns (ok: bool)
      modifies this`current, this`objects, this`server
      ensures (State(), ok) == T.Construct(old(State()), a, kind)
    {
      var previous := current;
      objects := objects[a := Tx(kind, true, previous, true)];
      current := Some(a);
      ok := ExecuteIfAny(StartCommand(kind, a));
      if !ok {
        current := previous;
        objects := objects - {a};
      }
    }

    method CheckCurrentTransaction(t: Addr) returns (ok: bool)
      requires t in objects
      ensures ok == IsCurrent(State(), t)
    {
      ok := objects[t].connected && current == Some(t);
    }

    method VReset(t: Addr)
      requires t in objects
      modifies this`current, this`objects
      ensures State() == Reset(old(State()), t)
    {
      current := objects[t].previous;
      objects := objects[t := objects[t].(connected := false)];
    }

    /** The stack after a call, when the call respects the order. */
    ghost method NextStack(e: Event) returns (next: Stack)
      requires Enabled(State(), e)
      ensures Valid() && InOrder(State(), e) ==>
                Implements(Step(State(), e).0, next) && StackStep(State(), stack, e, Step(State(), e).1, next)
    {
      next := stack;
      if Valid() && InOrder(State(), e) {
        next := StepRefines(State(), stack, e);
      }
    }

    /** The common part of `commit` and `rollback`: `v_reset` runs in the catch clause as well. */
    method End(t: Addr, c: Option<Command>) returns (ok: bool)
      requires t in objects && objects[t].connected
      modifies this`current, this`objects, this`server
      ensures (State(), ok) == T.End(old(State()), t, c)
    {
      ok := CheckCurrentTransaction(t);
      if ok {
        ok := ExecuteIfAny(c);
      }
      VReset(t);
    }

    method Commit(t: Addr, refused: bool) returns (ok: bool)
      requires Enabled(State(), CommitBy(t, refused))
      modifies this
      ensures (State(), ok) == Step(old(State()), CommitBy(t, refused))
      ensures old(Valid() && InOrder(State(), CommitBy(t, refused))) ==>
                Valid() && StackStep(old(State()), old(stack), CommitBy(t, refused), ok, stack)
    {
      ghost var next := NextStack(CommitBy(t, refused));
      ok := End(t, CommitCommand(objects[t].kind, t, refused));
      stack := next;
    }

    method Rollback(t: Addr) returns (ok: bool)
      requires Enabled(State(), RollbackBy(t))
      modifies this
      ensures (State(), ok) == Step(old(State()), RollbackBy(t))
      ensures old(Valid() && InOrder(State(), RollbackBy(t))) ==>
                Valid() && StackStep(old(State()), old(stack), RollbackBy(t), ok, stack)
    {
      ghost var next := NextStack(RollbackBy(t));
      ok := End(t, RollbackCommand(objects[t].kind, t));
      stack := next;
    }

    /** The destructors of the derived class and then of the base class. */
    method Destroy(a: Addr)
      requires a in objects
      modifies this`current, this`objects, this`server
      ensures State() == T.Destroy(old(State()), a)
    {
      var tx := objects[a];
      if tx.kind.Pipe? {
        if tx.previous.Some? {
          current := tx.previous;
        }
      } else if tx.connected {
        if RollbackCommand(tx.kind, a).Some? && AttemptRollback(State()) {
          var _ := End(a, RollbackCommand(tx.kind, a));
        } else {
          current := tx.previous;
        }
      }
      objects := objects - {a};
    }

    /** Objects without an owner are destroyed, from the youngest one on. */
    method Collect(first: Option<Addr>)
      modifies this`current, this`objects, this`server
      ensures State() == T.Collect(old(State()), first)
    {
      var a := first;
      while a.Some? && a.value in objects && !Alive(State(), a.value)
        invariant T.Collect(State(), a) == T.Collect(old(State()), first)
        invariant busy == old(busy)
        decreases |objects|
      {
        FewerObjects(State(), T.Destroy(State(), a.value), a.value);
        var previous := objects[a.value].previous;
        Destroy(a.value);
        a := previous;
      }
    }

    /** `connection::direct` and `connection::transaction` */
    method Open(a: Addr, kind: Kind) returns (ok: bool)
      requires Enabled(State(), Opening(a, kind))
      modifies this
      ensures (State(), ok) == Step(old(State()), Opening(a, kind))
      ensures old(Valid()) ==> Valid() && StackStep(old(State()), old(stack), Opening(a, kind), ok, stack)
    {
      ghost var next := NextStack(Opening(a, kind));
      ok := false;
      if current.None? {
        ok := Construct(a, kind);
      }
      stack := next;
    }

    method OpenSubtransaction(t: Addr, a: Addr) returns (ok: bool)
      requires Enabled(State(), Subtransaction(t, a))
      modifies this
      ensures (State(), ok) == Step(old(State()), Subtransaction(t, a))
      ensures old(Valid()) ==> Valid() && StackStep(old(State()), old(stack), Subtransaction(t, a), ok, stack)
    {
      ghost var next := NextStack(Subtransaction(t, a));
      ok := CheckCurrentTransaction(t);
      if ok {
        ok := Construct(a, if objects[t].kind.Direct? then TopSub else Nested);
      }
      stack := next;
    }

    /** `finish`: the pipeline has ended even when the pipeline mode cannot be left. */
    method FinishPipe(t: Addr) returns (ok: bool)
      requires Enabled(State(), FinishPipeline(t))
      modifies this
      ensures (State(), ok) == Step(old(State()), FinishPipeline(t))
      ensures old(Valid() && InOrder(State(), FinishPipeline(t))) ==>
                Valid() && StackStep(old(State()), old(stack), FinishPipeline(t), ok, stack)
    {
      ghost var next := NextStack(FinishPipeline(t));
      var previous := objects[t].previous;
      ok := previous.None? || !busy;
      if previous.Some? {
        current := previous;
        objects := objects[t := objects[t].(previous := None)];
        Collect(previous);
      }
      stack := next;
    }

    /** The last handle outside the library is gone. */
    method Drop(a: Addr)
      requires Enabled(State(), DropHandle(a))
      modifies this
      ensures State() == Step(old(State()), DropHandle(a)).0
      ensures old(Valid() && InOrder(State(), DropHandle(a))) ==>
                Valid() && StackStep(old(State()), old(stack), DropHandle(a), true, stack)
    {
      ghost var next := NextStack(DropHandle(a));
      objects := objects[a := objects[a].(held := false)];
      Collect(Some(a));
      stack := next;
    }
  }
}
