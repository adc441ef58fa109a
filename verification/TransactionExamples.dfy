/** Short runs that end in what the documentation does not promise. */
module TransactionExamples {
  import opened Basics
  import opened SavepointServer
  import opened Transactions
  import opened TransactionStack
  import opened TransactionRuns
  import opened TransactionTheorems
  import opened TransactionOutcomes
  import opened TransactionStray

  lemma {:induction false} RunCons(s: Client, e: Event, es: seq<Event>, next: Client)
    requires Enabled(s, e) && InOrder(s, e) && next == Step(s, e).0 && ValidRun(next, es)
    ensures ValidRun(s, [e] + es) && Run(s, [e] + es) == Run(next, es)
  {
    assert ([e] + es)[1..] == es;
  }

  /** A transaction at address 1, in a block with some contents. */
  function Opened(db: Db, working: Db, failed: bool): Client {
    Client(Some(1), map[1 := Tx(TopLevel, true, None, true)], false, Server(db, InBlock(working, [], failed)))
  }

  lemma OpenFirst(db: Db, es: seq<Event>) returns (all: seq<Event>)
    requires ValidRun(Opened(db, db, false), es)
    ensures all == [Opening(1, TopLevel)] + es
    ensures ValidRun(Connected(db), all) && Run(Connected(db), all) == Run(Opened(db, db, false), es)
  {
    assert Step(Connected(db), Opening(1, TopLevel)).0 == Opened(db, db, false);
    RunCons(Connected(db), Opening(1, TopLevel), es, Opened(db, db, false));
    all := [Opening(1, TopLevel)] + es;
  }

  /** A statement of the current transaction, and what comes after it. */
  lemma StatementRun(s: Client, t: Addr, effect: Option<Db>, es: seq<Event>, after: Client)
    returns (all: seq<Event>)
    requires Callable(s, t) && IsCurrent(s, t) && !s.busy && !s.server.block.Lost?
    requires after == s.(server := Serve(s.server, Statement(effect)).0) && ValidRun(after, es)
    ensures ValidRun(s, all) && Run(s, all) == Run(after, es)
  {
    var sent := after.(busy := true);
    assert Step(sent, FetchResult(t)).0 == after;
    RunCons(sent, FetchResult(t), es, after);
    RunCons(s, Send(t, effect), [FetchResult(t)] + es, sent);
    all := [Send(t, effect)] + ([FetchResult(t)] + es);
  }

  /** A failed statement, a commit that reports no error, and nothing committed. */
  lemma FailedCommitIsSilent(db: Db, other: Db) returns (es: seq<Event>)
    requires db != other
    ensures ValidRun(Connected(db), es)
    ensures var s := Run(Connected(db), es);
            && s.server.View() == other && s.current == Some(1) && Enabled(s, CommitBy(1, false))
            && Step(s, CommitBy(1, false)).1 && Step(s, CommitBy(1, false)).0.server.View() == db
  {
    es := StatementRun(Opened(db, other, false), 1, None, [], Opened(db, other, true));
    es := StatementRun(Opened(db, db, false), 1, Some(other), es, Opened(db, other, false));
    es := OpenFirst(db, es);
  }

  /** A second transaction, at address 2, within the first. */
  function NestedOpened(db: Db): Client {
    Client(Some(2), map[1 := Tx(TopLevel, true, None, true), 2 := Tx(Nested, true, Some(1), true)], false,
           Server(db, InBlock(db, [Savepoint(2, db)], false)))
  }

  /** A commit of the older of two transactions: it throws, and no chain is left. */
  lemma OutOfOrderCommit(db: Db) returns (es: seq<Event>)
    ensures ValidRun(Connected(db), es)
    ensures var s := Run(Connected(db), es);
            && s.current == Some(2) && Enabled(s, CommitBy(1, false)) && !Step(s, CommitBy(1, false)).1
            && !HasChain(Step(s, CommitBy(1, false)).0) && Step(s, CommitBy(1, false)).0.server == s.server
  {
    var s := NestedOpened(db);
    var first := Opened(db, db, false);
    var registered := Register(first, 2, Nested);
    assert registered.objects == s.objects;
    assert first.server.block.savepoints + [Savepoint(2, db)] == s.server.block.savepoints;
    assert Serve(first.server, SetSavepoint(2)) == (s.server, true);
    assert Construct(first, 2, Nested) == (s, true);
    RunCons(Opened(db, db, false), Subtransaction(1, 2), [], s);
    es := OpenFirst(db, [Subtransaction(1, 2)] + []);
    var k := EveryRunRefinesTheStack(db, es);
    CommitKeepsChainIffCurrent(s, k, 1, false);
  }

  /** A destructor while a result is outstanding: the block of the transaction stays open. */
  lemma BusyDestructor(db: Db, other: Db) returns (es: seq<Event>)
    ensures ValidRun(Connected(db), es)
    ensures var s := Run(Connected(db), es);
            && s.busy && s.current == Some(1) && 1 in s.objects
            && Destroy(s, 1).objects == map[] && Destroy(s, 1).server.block == InBlock(other, [], false)
  {
    var s := Opened(db, other, false).(busy := true);
    assert Step(Opened(db, db, false), Send(1, Some(other))).0 == s;
    RunCons(Opened(db, db, false), Send(1, Some(other)), [], s);
    es := OpenFirst(db, [Send(1, Some(other))] + []);
  }

  /** After such a destructor, and the end of the outstanding result: nothing is left but the block. */
  function Abandoned(db: Db, working: Db): Client {
    Client(None, map[2 := Tx(Direct, false, None, true)], false, Server(db, InBlock(working, [], false)))
  }

  lemma ReachAbandoned(db: Db, other: Db, es: seq<Event>) returns (all: seq<Event>)
    requires ValidRun(Abandoned(db, other), es)
    ensures all == [Opening(1, TopLevel), Send(1, Some(other)), DropHandle(1)]
                   + ([Opening(2, Direct), FetchResult(2), CommitBy(2, false)] + es)
    ensures ValidRun(Connected(db), all) && Run(Connected(db), all) == Run(Abandoned(db, other), es)
  {
    var tail := FetchStray(db, other, es);
    DropBusy(db, other);
    var busy := Opened(db, other, false).(busy := true);
    var gone := Client(None, map[], true, busy.server);
    RunCons(busy, DropHandle(1), tail, gone);
    RunCons(Opened(db, db, false), Send(1, Some(other)), [DropHandle(1)] + tail, busy);
    all := OpenFirst(db, [Send(1, Some(other))] + ([DropHandle(1)] + tail));
  }

  lemma DropBusy(db: Db, working: Db)
    ensures var s := Opened(db, working, false).(busy := true);
            Enabled(s, DropHandle(1)) && Step(s, DropHandle(1)).0 == Client(None, map[], true, s.server)
  {
    var released := Release(Opened(db, working, false).(busy := true), 1);
    assert released.objects == map[1 := Tx(TopLevel, true, None, false)];
    assert !Alive(released, 1);
    assert Destroy(released, 1).objects == map[];
    assert Collect(released, Some(1)) == Destroy(released, 1);
  }

  lemma FetchStray(db: Db, other: Db, es: seq<Event>) returns (all: seq<Event>)
    requires ValidRun(Abandoned(db, other), es)
    ensures var gone := Client(None, map[], true, Server(db, InBlock(other, [], false)));
            ValidRun(gone, all) && Run(gone, all) == Run(Abandoned(db, other), es)
    ensures all == [Opening(2, Direct), FetchResult(2), CommitBy(2, false)] + es
  {
    var end := Abandoned(db, other);
    var direct := Client(Some(2), map[2 := Tx(Direct, true, None, true)], false, end.server);
    var gone := Client(None, map[], true, end.server);
    assert Step(direct, CommitBy(2, false)).0.objects == end.objects;
    RunCons(direct, CommitBy(2, false), es, end);
    RunCons(direct.(busy := true), FetchResult(2), [CommitBy(2, false)] + es, direct);
    RunCons(gone, Opening(2, Direct), [FetchResult(2)] + ([CommitBy(2, false)] + es), direct.(busy := true));
    all := [Opening(2, Direct)] + ([FetchResult(2)] + ([CommitBy(2, false)] + es));
  }

  /** Then a transaction without a single statement commits what the abandoned one did. */
  lemma AbandonedWorkIsCommitted(db: Db, other: Db) returns (es: seq<Event>)
    ensures es == [Opening(1, TopLevel), Send(1, Some(other)), DropHandle(1)]
                  + ([Opening(2, Direct), FetchResult(2), CommitBy(2, false)]
                     + [Opening(1, TopLevel), CommitBy(1, false)])
    ensures ValidRun(Connected(db), es) && Run(Connected(db), es).server == Server(other, Idle)
  {
    var s := Abandoned(db, other);
    var before := ReachAbandoned(db, other, []);
    var k := EveryRunRefinesTheStack(db, before);
    StrayWorkIsCommitted(s, k, 1);
    var begun := Step(s, Opening(1, TopLevel)).0;
    RunCons(begun, CommitBy(1, false), [], Step(begun, CommitBy(1, false)).0);
    RunCons(s, Opening(1, TopLevel), [CommitBy(1, false)] + [], begun);
    es := ReachAbandoned(db, other, [Opening(1, TopLevel)] + ([CommitBy(1, false)] + []));
  }

  /** In the stray block there is no way back to the contents that a new transaction finds. */
  lemma StrayRollback(db: Db, other: Db) returns (es: seq<Event>)
    requires db != other
    ensures ValidRun(Connected(db), es)
    ensures var s := Run(Connected(db), es);
            && Enabled(s, Opening(1, TopLevel)) && Creates(s, Opening(1, TopLevel), 1)
            && Ready(Step(s, Opening(1, TopLevel)).0, 1)
            && !Restored(s, Rollback(Step(s, Opening(1, TopLevel)).0, 1).0)
  {
    es := ReachAbandoned(db, other, []);
    var s := Abandoned(db, other);
    assert Run(Connected(db), es) == s;
    assert ServeIfAny(Step(s, Opening(1, TopLevel)).0.server, Some(RollbackTransaction)).0 == Server(db, Idle);
  }
}
