/**
  The client's transaction objects: which of them is the connection's current one, which are
  unfinished, and what they make the server do. The objects are the entries of a map from
  addresses; an entry disappears when the object is destroyed, and its address may be used again.
 */
module Transactions {
  import opened Basics
  import opened SavepointServer

  /** The classes derived from `transaction_base`. */
  datatype Kind = Direct | TopLevel | TopSub | Nested | Guard | Pipe

  /**
    connected: `m_connection` is not null; previous: `m_previous`; held: somebody other than a
    younger transaction owns the object.
   */
  datatype Tx = Tx(kind: Kind, connected: bool, previous: Option<Addr>, held: bool)

  /** `busy`: a command was sent and its result was not fetched yet. */
  datatype Client = Client(current: Option<Addr>, objects: map<Addr, Tx>, busy: bool, server: Server)

  /** The logical lifetime of the object has not ended. */
  predicate Open(tx: Tx) { if tx.kind.Pipe? then tx.previous.Some? else tx.connected }

  // ---------- what the methods do ----------

  /** `execute`: nothing can be sent while a result is outstanding. */
  function Execute(s: Client, c: Command): (Client, bool) {
    if s.busy then (s, false)
    else
      var (server, ok) := Serve(s.server, c);
      (s.(server := server), ok)
  }

  function ExecuteIfAny(s: Client, c: Option<Command>): (Client, bool) {
    match c case None => (s, true) case Some(c) => Execute(s, c)
  }

  function CommitCommand(kind: Kind, t: Addr, refused: bool): Option<Command> {
    match kind
    case TopLevel => Some(CommitTransaction(refused))
    case TopSub => Some(CommitTransaction(refused))
    case Nested => Some(ReleaseSavepoint(t))
    case _ => None
  }

  function RollbackCommand(kind: Kind, t: Addr): Option<Command> {
    match kind
    case TopLevel => Some(RollbackTransaction)
    case TopSub => Some(RollbackTransaction)
    case Nested => Some(RollbackTo(t))
    case _ => None
  }

  function StartCommand(kind: Kind, t: Addr): Option<Command> {
    match kind
    case TopLevel => Some(StartTransaction)
    case TopSub => Some(StartTransaction)
    case Nested => Some(SetSavepoint(t))
    case _ => None
  }

  /** A new object becomes the current one. */
  function Register(s: Client, a: Addr, kind: Kind): Client {
    s.(current := Some(a), objects := s.objects[a := Tx(kind, true, s.current, true)])
  }

  /**
    A constructor: the object is registered first, then its command is executed. When that fails,
    the destructors of the base classes make the previous object the current one again.
   */
  function Construct(s: Client, a: Addr, kind: Kind): (Client, bool) {
    var (s1, ok) := ExecuteIfAny(Register(s, a, kind), StartCommand(kind, a));
    if ok then (s1, true) else (s1.(current := s.current, objects := s1.objects - {a}), false)
  }

  /** `v_reset` */
  function Reset(s: Client, t: Addr): (after: Client)
    requires t in s.objects
    ensures after.objects.Keys == s.objects.Keys
  {
    var tx := s.objects[t];
    s.(current := tx.previous, objects := s.objects[t := tx.(connected := false)])
  }

  /** `commit` and `rollback`; the object is reset in any case, even when it is not the current one. */
  function End(s: Client, t: Addr, c: Option<Command>): (outcome: (Client, bool))
    requires t in s.objects
    ensures outcome.0.objects.Keys == s.objects.Keys
  {
    if s.current != Some(t) then (Reset(s, t), false)
    else
      var (s1, ok) := ExecuteIfAny(s, c);
      (Reset(s1, t), ok)
  }

  function Commit(s: Client, t: Addr, refused: bool): (Client, bool)
    requires t in s.objects
  {
    End(s, t, CommitCommand(s.objects[t].kind, t, refused))
  }

  function Rollback(s: Client, t: Addr): (Client, bool)
    requires t in s.objects
  {
    End(s, t, RollbackCommand(s.objects[t].kind, t))
  }

  datatype Status = StatusIdle | StatusActive | StatusInTransaction | StatusError | StatusUnknown

  /** `PQtransactionStatus` */
  function TransactionStatus(s: Client): Status {
    if s.server.block.Lost? then StatusUnknown
    else if s.busy then StatusActive
    else if s.server.block.Idle? then StatusIdle
    else if s.server.block.failed then StatusError
    else StatusInTransaction
  }

  predicate AttemptRollback(s: Client) {
    var status := TransactionStatus(s);
    status != StatusIdle && status != StatusActive
  }

  /** The destructors. */
  function Destroy(s: Client, a: Addr): (after: Client)
    requires a in s.objects
    ensures after.objects.Keys == s.objects.Keys - {a}
  {
    var tx := s.objects[a];
    var s1 :=
      if tx.kind.Pipe? then (if tx.previous.Some? then s.(current := tx.previous) else s)
      else if !tx.connected then s
      else if RollbackCommand(tx.kind, a).Some? && AttemptRollback(s) then Rollback(s, a).0
      else s.(current := tx.previous);
    s1.(objects := s1.objects - {a})
  }

  /** Some younger object keeps `a` alive. */
  predicate Referenced(s: Client, a: Addr) {
    exists b <- s.objects :: s.objects[b].previous == Some(a)
  }

  predicate Alive(s: Client, a: Addr) { a in s.objects && (s.objects[a].held || Referenced(s, a)) }

  /** Destroys an object that nobody owns, and then those that it was the last one to own. */
  function Collect(s: Client, a: Option<Addr>): Client
    decreases |s.objects|
  {
    if a.None? || a.value !in s.objects || Alive(s, a.value) then s
    else
      FewerObjects(s, Destroy(s, a.value), a.value);
      Collect(Destroy(s, a.value), s.objects[a.value].previous)
  }

  lemma FewerObjects(s: Client, after: Client, a: Addr)
    requires a in s.objects && after.objects.Keys == s.objects.Keys - {a}
    ensures |after.objects| < |s.objects|
  {
    assert |after.objects.Keys| == |s.objects.Keys| - 1;
  }
}
