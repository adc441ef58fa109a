/**
  The plain stack that the client's objects and the server's savepoints implement together: a
  frame per unfinished transaction, with the database as it was when the transaction started.
 */
module TransactionStack {
  import opened Basics
  import opened SavepointServer
  import opened Transactions

  datatype Frame = Frame(id: Addr, kind: Kind, saved: Db)

  /** stray: the server is in a block that was started by a transaction which is gone. */
  datatype Stack = Stack(frames: seq<Frame>, committed: Db, working: Db, failed: bool, stray: bool, lost: bool) {
    predicate InTransaction() { InTx(frames) || stray }

    function View(): Db { if InTransaction() && !lost then working else committed }

    function Top(): Frame requires frames != [] { frames[|frames| - 1] }

    predicate IsTop(a: Addr) { frames != [] && Top().id == a }

    function Pop(): Stack requires frames != [] { this.(frames := frames[..|frames| - 1]) }

    /** A transaction that starts a block in a stray one goes on with what it finds there. */
    function Push(id: Addr, kind: Kind): Stack {
      var pushed := this.(frames := frames + [Frame(id, kind, View())]);
      if Starts(kind) && !stray then pushed.(working := committed, failed := false) else pushed
    }

    /** The newest transaction is rolled back. */
    function Undo(): (next: Stack)
      requires frames != []
      ensures next.frames == frames[..|frames| - 1] && next.committed == committed
    {
      if lost then Pop()
      else if Starts(Top().kind) then Pop().(stray := false)
      else if Top().kind.Nested? then Pop().(working := Top().saved, failed := false)
      else Pop()
    }

    /** The newest transaction ends without a word to the server, which keeps its block. */
    function Abandon(): (next: Stack)
      requires frames != []
      ensures next.frames == frames[..|frames| - 1] && next.committed == committed
    {
      if Starts(Top().kind) then Pop().(stray := true) else Pop()
    }

    /** Committing the newest transaction; on a failed or refused block this rolls it back. */
    function Keep(refused: bool): Stack
      requires frames != []
    {
      if Starts(Top().kind) && !lost then
        Pop().(stray := false, committed := if failed || refused then committed else working)
      else Pop()
    }

    /** What the destructors do: nothing can be sent while a result is outstanding. */
    function GiveUp(busy: bool): (next: Stack)
      requires frames != []
      ensures next.frames == frames[..|frames| - 1] && next.committed == committed
    {
      if busy then Abandon() else Undo()
    }

    function Write(effect: Option<Db>): Stack {
      if lost || (InTransaction() && failed) then this
      else match effect
        case Some(db) => if InTransaction() then this.(working := db) else this.(committed := db)
        case None => if InTransaction() then this.(failed := true) else this
    }

    function Unwind(k: nat, busy: bool): Stack
      requires k <= |frames|
      decreases k
    {
      if k == 0 then this else GiveUp(busy).Unwind(k - 1, busy)
    }
  }

  lemma {:induction false} UnwindFrames(k: Stack, n: nat, busy: bool)
    requires n <= |k.frames|
    ensures k.Unwind(n, busy).frames == k.frames[..|k.frames| - n] && k.Unwind(n, busy).committed == k.committed
    decreases n
  {
    if n > 0 {
      UnwindFrames(k.GiveUp(busy), n - 1, busy);
      var shorter := k.frames[..|k.frames| - 1];
      assert shorter[..|shorter| - (n - 1)] == k.frames[..|k.frames| - n];
    } else {
      assert k.frames[..|k.frames|] == k.frames;
    }
  }

  /** The transactions that start a block on the server. */
  predicate Starts(kind: Kind) { kind.TopLevel? || kind.TopSub? }

  predicate InTx(frames: seq<Frame>) { exists i :: 0 <= i < |frames| && Starts(frames[i].kind) }

  /** Which transaction may be created on top of which. */
  predicate Stackable(frames: seq<Frame>, i: nat)
    requires i < |frames|
  {
    match frames[i].kind
    case Direct => i == 0
    case TopLevel => i == 0
    case TopSub => i > 0 && frames[i - 1].kind.Direct?
    case Nested => i > 0 && (Starts(frames[i - 1].kind) || frames[i - 1].kind.Nested?)
    case _ => i > 0
  }

  /**
    The unfinished objects are exactly the frames, chained through `m_previous`, with a top-level
    one at the end of the chain, and the newest one is the connection's current transaction.
   */
  ghost predicate Chained(s: Client, frames: seq<Frame>) {
    && (forall i :: 0 <= i < |frames| ==> ChainedAt(s, frames, i))
    && (forall i, j :: 0 <= i < j < |frames| ==> frames[i].id != frames[j].id)
    && (forall a {:trigger InFrames(frames, a)} :: a in s.objects && Open(s.objects[a]) ==> InFrames(frames, a))
    && s.current == if frames == [] then None else Some(frames[|frames| - 1].id)
  }

  ghost predicate ChainedAt(s: Client, frames: seq<Frame>, i: nat)
    requires i < |frames|
  {
    && frames[i].id in s.objects
    && s.objects[frames[i].id].kind == frames[i].kind
    && s.objects[frames[i].id].connected && Open(s.objects[frames[i].id])
    && s.objects[frames[i].id].previous == (if i == 0 then None else Some(frames[i - 1].id))
    && Stackable(frames, i)
  }

  ghost predicate InFrames(frames: seq<Frame>, a: Addr) {
    exists i :: 0 <= i < |frames| && frames[i].id == a
  }

  /** Every object is owned by somebody, except perhaps for one that is about to be destroyed. */
  ghost predicate Owned(s: Client, but: Option<Addr>) {
    && (forall a {:trigger Alive(s, a)} :: a in s.objects && Some(a) != but ==> Alive(s, a))
    && (forall a <- s.objects :: s.objects[a].previous.Some? ==> s.objects[a].previous.value in s.objects)
  }

  /** The live savepoints are found by their names, in the order in which they were set. */
  ghost predicate SavepointsFound(sps: seq<Savepoint>, frames: seq<Frame>) {
    && (forall i :: 0 <= i < |frames| && frames[i].kind.Nested? ==> SavepointFound(sps, frames[i]))
    && (forall i, j :: 0 <= i < j < |frames| && frames[i].kind.Nested? && frames[j].kind.Nested? ==>
          Lookup(sps, frames[i].id) < Lookup(sps, frames[j].id))
  }

  ghost predicate SavepointFound(sps: seq<Savepoint>, frame: Frame) {
    Lookup(sps, frame.id) >= 0 && sps[Lookup(sps, frame.id)].saved == frame.saved
  }

  /** The server's side of the relation. */
  ghost predicate Backed(server: Server, k: Stack) {
    && server.committed == k.committed
    && (server.block.Lost? <==> k.lost)
    && (!k.lost && k.InTransaction() ==>
          server.block.InBlock? && server.block.working == k.working && server.block.failed == k.failed
          && SavepointsFound(server.block.savepoints, k.frames))
    && (!k.lost && !k.InTransaction() ==> server.block.Idle?)
  }

  /** The client and the server together implement the stack, but an object may lack an owner. */
  ghost predicate Related(s: Client, k: Stack, but: Option<Addr>) {
    Chained(s, k.frames) && Owned(s, but) && Backed(s.server, k)
  }

  /** An object is younger than the one it points to. */
  ghost predicate RankedBy(s: Client, rank: map<Addr, nat>) {
    && s.objects.Keys <= rank.Keys
    && forall a <- s.objects :: s.objects[a].previous.Some? ==>
         s.objects[a].previous.value in rank && rank[s.objects[a].previous.value] < rank[a]
  }

  ghost predicate Ranked(s: Client) { exists rank :: RankedBy(s, rank) }

  ghost predicate Implements(s: Client, k: Stack) { Related(s, k, None) && Ranked(s) }

  // ---------- the server's side ----------

  lemma InTxOfPrefix(frames: seq<Frame>, f: Frame)
    ensures InTx(frames + [f]) <==> InTx(frames) || Starts(f.kind)
  {
    forall i | 0 <= i < |frames| ensures (frames + [f])[i] == frames[i] {}
    assert (frames + [f])[|frames|] == f;
  }

  lemma SplitTop(k: Stack)
    requires k.frames != []
    ensures k.frames == k.Pop().frames + [k.Top()]
    ensures InTx(k.frames) <==> InTx(k.Pop().frames) || Starts(k.Top().kind)
  {
    InTxOfPrefix(k.Pop().frames, k.Top());
  }

  predicate Stacked(frames: seq<Frame>) { forall i :: 0 <= i < |frames| ==> Stackable(frames, i) }

  /** Below a nested transaction there is the one that started the block. */
  lemma {:induction false} NestedInTx(frames: seq<Frame>, i: nat)
    requires Stacked(frames) && i < |frames| && (frames[i].kind.Nested? || Starts(frames[i].kind))
    ensures exists j :: 0 <= j <= i && Starts(frames[j].kind)
  {
    assert Stackable(frames, i);
    if !Starts(frames[i].kind) {
      NestedInTx(frames, i - 1);
    }
  }

  /** Only the oldest transaction, or the one on top of a direct transaction, starts a block. */
  lemma OneStart(frames: seq<Frame>)
    requires Stacked(frames) && frames != [] && Starts(frames[|frames| - 1].kind)
    ensures !InTx(frames[..|frames| - 1])
  {
    var n := |frames|;
    assert Stackable(frames, n - 1);
    if n > 1 {
      assert Stackable(frames, n - 2);
      assert frames[..n - 1] == [frames[0]];
    }
  }

  lemma BackedStart(server: Server, k: Stack, a: Addr, kind: Kind)
    requires Backed(server, k) && Stacked(k.frames) && Starts(kind) && !InTx(k.frames)
    ensures var (after, ok) := Serve(server, StartTransaction);
            Backed(after, if ok then k.Push(a, kind) else k)
  {
    var f := Frame(a, kind, k.View());
    InTxOfPrefix(k.frames, f);
    NoNested(k.frames);
  }

  /** The new savepoint holds the state at the start of the transaction. */
  lemma BackedSavepoint(server: Server, k: Stack, a: Addr)
    requires Backed(server, k) && InTx(k.frames) && !InFrames(k.frames, a)
    ensures var (after, ok) := Serve(server, SetSavepoint(a));
            Backed(after, if ok then k.Push(a, Nested) else k)
  {
    var f := Frame(a, Nested, k.View());
    InTxOfPrefix(k.frames, f);
  }

  lemma BackedOther(server: Server, k: Stack, a: Addr, kind: Kind)
    requires Backed(server, k) && !Starts(kind) && !kind.Nested?
    ensures Backed(server, k.Push(a, kind))
  {
    var f := Frame(a, kind, k.View());
    InTxOfPrefix(k.frames, f);
  }

  /** The end of the block takes all savepoints with it. */
  lemma BackedEndOfBlock(server: Server, k: Stack, committed: Db)
    requires Backed(server, k) && Stacked(k.frames) && k.frames != [] && Starts(k.Top().kind) && !k.lost
    ensures Backed(Server(committed, Idle), k.Pop().(stray := false, committed := committed))
  {
    OneStart(k.frames);
  }

  /** The server, which is not told, goes on in the same block. */
  lemma BackedAbandon(server: Server, k: Stack)
    requires Backed(server, k) && k.frames != []
    ensures Backed(server, k.Abandon())
  {
    SplitTop(k);
  }

  /** A nested transaction runs inside a block, and so does its parent. */
  lemma NestedInBlock(server: Server, k: Stack)
    requires Backed(server, k) && Stacked(k.frames) && k.frames != [] && k.Top().kind.Nested?
    ensures k.Pop().InTransaction()
    ensures !k.lost ==> server.block.InBlock? && SavepointsFound(server.block.savepoints, k.frames)
  {
    SplitTop(k);
    NestedInTx(k.frames, |k.frames| - 1);
  }

  /** Removing savepoints that are newer than all live ones. */
  lemma {:induction false} FoundBelow(sps: seq<Savepoint>, frames: seq<Frame>, m: nat)
    requires SavepointsFound(sps, frames) && m <= |sps|
    requires forall i :: 0 <= i < |frames| && frames[i].kind.Nested? ==> Lookup(sps, frames[i].id) < m
    ensures SavepointsFound(sps[..m], frames)
  {
    forall i | 0 <= i < |frames| && frames[i].kind.Nested?
      ensures Lookup(sps[..m], frames[i].id) == Lookup(sps, frames[i].id)
    {
      LookupCut(sps, m, frames[i].id);
    }
  }

  /** The parents' savepoints are older than the newest transaction's own one. */
  lemma {:induction false} FoundBelowTop(sps: seq<Savepoint>, k: Stack, m: nat)
    requires SavepointsFound(sps, k.frames) && k.frames != [] && k.Top().kind.Nested?
    requires 0 <= Lookup(sps, k.Top().id) <= m <= |sps|
    ensures SavepointFound(sps, k.Top()) && SavepointsFound(sps[..m], k.Pop().frames)
  {
    assert SavepointFound(sps, k.frames[|k.frames| - 1]);
    FoundBelow(sps, k.Pop().frames, m);
  }

  /** RELEASE SAVEPOINT takes away the transaction's own savepoint and nothing of its parents. */
  lemma BackedRelease(server: Server, k: Stack)
    requires Backed(server, k) && Stacked(k.frames) && k.frames != [] && k.Top().kind.Nested?
    ensures Backed(Serve(server, ReleaseSavepoint(k.Top().id)).0, k.Pop())
  {
    NestedInBlock(server, k);
    if !k.lost {
      var sps := server.block.savepoints;
      assert SavepointFound(sps, k.frames[|k.frames| - 1]);
      FoundBelowTop(sps, k, |sps|);
      FoundBelowTop(sps, k, Lookup(sps, k.Top().id));
      assert sps[..|sps|] == sps;
    }
  }

  /** ROLLBACK TO restores the transaction's own state, and leaves a stale savepoint behind. */
  lemma BackedRollbackTo(server: Server, k: Stack)
    requires Backed(server, k) && Stacked(k.frames) && k.frames != [] && k.Top().kind.Nested?
    ensures Backed(Serve(server, RollbackTo(k.Top().id)).0, k.Undo())
  {
    NestedInBlock(server, k);
    if !k.lost {
      var sps := server.block.savepoints;
      assert SavepointFound(sps, k.frames[|k.frames| - 1]);
      var m := Lookup(sps, k.Top().id) + 1;
      FoundBelowTop(sps, k, m);
      var after := server.(block := InBlock(k.Top().saved, sps[..m], false));
      assert Serve(server, RollbackTo(k.Top().id)).0 == after;
      assert Backed(after, k.Undo());
    }
  }

  lemma NoNested(frames: seq<Frame>)
    requires Stacked(frames) && !InTx(frames)
    ensures forall i :: 0 <= i < |frames| ==> !frames[i].kind.Nested?
  {
    forall i | 0 <= i < |frames| ensures !frames[i].kind.Nested? {
      if frames[i].kind.Nested? {
        NestedInTx(frames, i);
      }
    }
  }

  function ServeIfAny(server: Server, c: Option<Command>): (Server, bool) {
    match c case None => (server, true) case Some(c) => Serve(server, c)
  }

  lemma BackedPush(server: Server, k: Stack, a: Addr, kind: Kind)
    requires Backed(server, k) && Stacked(k.frames) && !InFrames(k.frames, a)
    requires Starts(kind) ==> !InTx(k.frames)
    requires kind.Nested? ==> InTx(k.frames)
    ensures var (after, ok) := ServeIfAny(server, StartCommand(kind, a));
            Backed(after, if ok then k.Push(a, kind) else k)
  {
    if Starts(kind) {
      BackedStart(server, k, a, kind);
    } else if kind.Nested? {
      BackedSavepoint(server, k, a);
    } else {
      BackedOther(server, k, a, kind);
    }
  }

  lemma BackedUndo(server: Server, k: Stack)
    requires Backed(server, k) && Stacked(k.frames) && k.frames != []
    ensures Backed(ServeIfAny(server, RollbackCommand(k.Top().kind, k.Top().id)).0, k.Undo())
  {
    SplitTop(k);
    if k.Top().kind.Nested? {
      BackedRollbackTo(server, k);
    } else if Starts(k.Top().kind) && !k.lost {
      BackedEndOfBlock(server, k, k.committed);
    }
  }

  lemma BackedKeep(server: Server, k: Stack, refused: bool)
    requires Backed(server, k) && Stacked(k.frames) && k.frames != []
    ensures Backed(ServeIfAny(server, CommitCommand(k.Top().kind, k.Top().id, refused)).0, k.Keep(refused))
  {
    SplitTop(k);
    if k.Top().kind.Nested? {
      BackedRelease(server, k);
    } else if Starts(k.Top().kind) && !k.lost {
      BackedEndOfBlock(server, k, if k.failed || refused then k.committed else k.working);
    }
  }
}
