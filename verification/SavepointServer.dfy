/**
  What a PostgreSQL session does with transaction control: the reference pages of START
  TRANSACTION, COMMIT, ROLLBACK, SAVEPOINT, RELEASE SAVEPOINT and ROLLBACK TO SAVEPOINT.
 */
module SavepointServer {
  import opened Basics

  /** The address of a client object; the names of savepoints are made from it. */
  type Addr = nat

  /** The contents of a database, as this session sees it. */
  type Db = map<string, string>

  datatype Savepoint = Savepoint(name: Addr, saved: Db)

  /** The state of the session: no block, a block (perhaps a failed one), or no connection. */
  datatype Block = Idle | InBlock(working: Db, savepoints: seq<Savepoint>, failed: bool) | Lost

  datatype Server = Server(committed: Db, block: Block) {
    function View(): Db { if block.InBlock? then block.working else committed }
  }

  datatype Command =
    | StartTransaction
    | CommitTransaction(refused: bool)      // refused: by a deferred constraint, say
    | RollbackTransaction
    | SetSavepoint(name: Addr)
    | ReleaseSavepoint(name: Addr)
    | RollbackTo(name: Addr)
    | Statement(effect: Option<Db>)         // None: the statement fails

  /** The most recent savepoint with a name, or -1. */
  function Lookup(sps: seq<Savepoint>, name: Addr): (k: int)
    ensures -1 <= k < |sps|
    ensures k >= 0 ==> sps[k].name == name
  {
    if sps == [] then -1
    else if sps[|sps| - 1].name == name then |sps| - 1
    else Lookup(sps[..|sps| - 1], name)
  }

  /** A failed block takes only the commands that end it or go back to a savepoint. */
  predicate EndsFailure(c: Command) {
    c.CommitTransaction? || c.RollbackTransaction? || c.RollbackTo?
  }

  /** The new state, and whether the command succeeds. */
  function Serve(s: Server, c: Command): (Server, bool) {
    match s.block
    case Lost => (s, false)
    case Idle => ServeIdle(s, c)
    case InBlock(working, sps, failed) =>
      if failed && !EndsFailure(c) then (s, false) else ServeInBlock(s, working, sps, failed, c)
  }

  function ServeIdle(s: Server, c: Command): (Server, bool) {
    match c
    case StartTransaction => (s.(block := InBlock(s.committed, [], false)), true)
    case CommitTransaction(_) => (s, true)
    case RollbackTransaction => (s, true)
    case Statement(Some(db)) => (s.(committed := db), true)
    case _ => (s, false)
  }

  function ServeInBlock(s: Server, working: Db, sps: seq<Savepoint>, failed: bool, c: Command): (Server, bool) {
    match c
    case StartTransaction => (s, true)
    case CommitTransaction(refused) =>
      if failed then (s.(block := Idle), true)
      else if refused then (s.(block := Idle), false)
      else (Server(working, Idle), true)
    case RollbackTransaction => (s.(block := Idle), true)
    case SetSavepoint(name) => (s.(block := InBlock(working, sps + [Savepoint(name, working)], false)), true)
    case ReleaseSavepoint(name) =>
      var k := Lookup(sps, name);
      if k < 0 then (s.(block := InBlock(working, sps, true)), false)
      else (s.(block := InBlock(working, sps[..k], false)), true)
    case RollbackTo(name) =>
      var k := Lookup(sps, name);
      if k < 0 then (s.(block := InBlock(working, sps, true)), false)
      else (s.(block := InBlock(sps[k].saved, sps[..k + 1], false)), true)
    case Statement(Some(db)) => (s.(block := InBlock(db, sps, false)), true)
    case Statement(None) => (s.(block := InBlock(working, sps, true)), false)
  }

  /** A new savepoint hides older ones of its name and nothing else. */
  lemma {:induction false} LookupPushed(sps: seq<Savepoint>, sp: Savepoint, name: Addr)
    ensures Lookup(sps + [sp], name) == if sp.name == name then |sps| else Lookup(sps, name)
  {
    assert (sps + [sp])[..|sps|] == sps;
  }

  /** Removing savepoints that are newer than the one found does not change what is found. */
  lemma {:induction false} LookupCut(sps: seq<Savepoint>, n: nat, name: Addr)
    requires Lookup(sps, name) < n <= |sps|
    ensures Lookup(sps[..n], name) == Lookup(sps, name)
  {
    if n < |sps| {
      var shorter := sps[..|sps| - 1];
      LookupCut(shorter, n, name);
      assert shorter[..n] == sps[..n];
    } else {
      assert sps[..n] == sps;
    }
  }
}
