# taoPQ, modelled in Dafny

taoPQ is a C++ client library for PostgreSQL. This project models the parts of it that carry state
or that write and read texts, and proves what they keep, restore and give back. A statement is
about every input, every run or every interleaving, unless it says otherwise.
`dafny verify dfyconfig.toml` checks the whole project.

## What is modelled

**Nested transactions** (`SavepointServer`, `Transactions`, `TransactionStack`, `TransactionOwners`,
`TransactionRefinement`, `TransactionRuns`, `TransactionTheorems`, `TransactionDrops`,
`TransactionOutcomes`, `TransactionStray`, `TransactionExamples`, `TransactionSession`). The client's
transaction objects lie at addresses; the connection knows the current one, and each knows the
previous one. An address is used again after an object is destroyed, and savepoints are named after
addresses. The server is a session with committed data, working data, a list of named savepoints and a
failed flag, as the reference pages of START TRANSACTION, COMMIT, ROLLBACK, SAVEPOINT, RELEASE
SAVEPOINT and ROLLBACK TO SAVEPOINT describe it. `Step` is one call, with exceptions, and `Session`
has the same calls as methods that update fields. Together they refine a plain stack of saved database
states. An object is kept by a handle outside the library or by a younger object that is kept
(`Kept`); what loses its last owner is destroyed, and the stack gives up exactly those transactions.
Results may be outstanding at any time: then transactions end without a word to the server, and a
block whose transaction has ended like that is a stray one.

**COPY** (`CopyText`, `TableReader`, `CopyTransfer`). Writer and reader of the client do not speak to
each other but to the server, so COPY FROM (the decoder) and COPY TO (the encoder) of the "Text Format"
section of the COPY reference page are specification functions between them. `TableReader` unescapes a
line inside its own buffer, keeps indices into it, as the library keeps pointers, and has the iterator
of the library with its comparison by the number of columns.

**Arrays** (`ArrayText`, `ArrayRoundTrip`, `ArrayBounds`, `ArrayLoops`, `ArrayServer`, `ArrayExchange`,
`ArrayExamples`). The printer, the type-directed parser, the loops of both, and exactly which texts lead
the parser past their end. `ArrayServer` has the input and output routines of the server for arrays of
texts, written from section 8.15.6 of the PostgreSQL documentation without any part of the client;
`ArrayExchange` says what the client and the server make of each other's text.

**Composite values** (`Gen`, `Composite`, `RowNames`). Pairs, tuples and optionals are flattened
through `gen` and rebuilt by slicing a row.

**Parameters** (`Parameter`). A direct statement's arrays, and the class `parameter` with its four
fixed arrays and the arguments that it owns.

**bytea** (`Bytea`). The hex format of section 8.4.1 of the PostgreSQL documentation, on both sides.

**The object pool** (`PoolProtocol`, `PoolPlaces`, `PoolCounting`, `PoolTheorems`, `Pool`, `PoolAlone`).
A state machine whose steps are the critical sections, the accesses to the counter and those to the
deleters, in any interleaving; and a class for a single caller. `PoolAlone` connects the two.

## What the code does where more could be expected

- `commit()` of a transaction in a failed block returns normally, and nothing is committed: the server
  answers COMMIT with a rollback (`CommitOutcome` has the exact condition, `FailedCommitIsSilent` an example).
- `commit()` or `rollback()` of an object that is not the current one throws, but resets the object all the
  same, which breaks the chain of unfinished objects. `doc/Transaction.md`, "Transaction Ordering",
  speaks of the exception only (`CommitKeepsChainIffCurrent`, `RollbackKeepsChainIffCurrent`, with the
  example `OutOfOrderCommit`). `finish()` of a pipeline does not look at the order at all
  (`FinishKeepsChainIffCurrent`).
- While a result is outstanding, `commit()` and `rollback()` throw and reset the object, and destructors do
  not roll back. The block stays open, with no object left that could end it (`CommitOutcome`,
  `RollbackOutcome`, `DestructorEndsBlockIffIdle`, with the example `BusyDestructor`; `StepStrays`
  says that blocks are left in no other way). The next transaction starts within that block: its commit
  makes the abandoned work permanent (`StrayWorkIsCommitted`, `AbandonedWorkIsCommitted`), and its rollback
  does not lead back to what it found (`RollbackRestores` has the exact condition, `StrayRollback` an
  example, and `CleanUnlessAbandoned` says that nothing else breaks it).
- An optional directly inside an optional is lost in an array: the printer has one word for both
  (`ArrayRoundTrip.RoundTrip` holds for exactly the faithful values, `NestedOptionalIsLost` is an example).
  Likewise an engaged optional of a composite type whose columns are all NULL is read as a disengaged one
  (`Composite.RoundTrip`).
- A text in an array does not reach the server as it is when it is printed without quotes and begins or
  ends with a newline, a carriage return, a vertical tab or a form feed, or spells NULL in another case
  (`PrintedArrives` has the exact condition, `SpelledNullIsLost` and `NewlineIsLost` examples).
- The parser takes a semicolon for a delimiter, but the server does not quote it: a text with a semicolon,
  and without a character that the server quotes, comes back as several elements (`ServerTextIsRead` and
  `ThereAndBack` have the exact condition, `SemicolonSplits` is an example).
- A COPY line of a row without columns is the line of one empty text, and is read as one entry
  (`TableReader.AsRead`).
- `begin()` of a table reader ignores whether there is a row, and iterators are compared by their number
  of columns. So the loop over a table with columns and without rows reads an entry that does not exist,
  and the loop over a table without columns sees none of its rows. `IterationIsExact` has both
  conditions, `EmptyTableIsMisread` an example.
- `parse_quoted` is led past the end of a text whose last backslash is not escaped itself and that has
  no closing quote. `ParseStaysInside` and `FromStaysInside` have the exact condition for whole parses,
  `OverrunHappens` is an example.
- When `bind` throws, the arguments before the one that does not fit stay bound
  (`BindKeepsFittingPrefix`). When that happens in the constructor, the destructor does not run, and
  those of them that are stored are never released (`Construct` has the exact condition).
- When the `shared_ptr` of a new pool item cannot be allocated, the deleter lowers the counter before
  `create` has raised it. From then on `attached()` is too low by one (`AttachedAtRest`,
  `NeverBelowZero`, with the example `FailedAllocationUncounts`).

## Model

| member | source | states |
|---|---|---|
| TransactionTheorems.EveryRunRefinesTheStack | src/lib/pq/transaction.cpp:22-157 | every run of creations, statements, failures, in-order finishes, handle drops in any order and loss of the connection, with or without results outstanding, makes the stack of saved states make the same run; the unfinished objects form one chain to a top-level one, the newest is current, live savepoints are found by name in order |
| TransactionDrops.OnlyTheCurrentIsDestroyed | include/tao/pq/transaction.hpp:62-85 | after any such run there is one chain with the current object at its end, and an unfinished object that the next drop or finish destroys is the current one at that time |
| TransactionTheorems.RollbackRestores | src/lib/pq/transaction.cpp:128-141 | after any run, and any further run within the transaction, `rollback` succeeds with the previous object current, and leaves the data as it was at the creation, outside the failed state, if and only if the transaction is nested or found nothing uncommitted |
| TransactionStray.CleanUnlessAbandoned | src/lib/pq/connection.cpp:185-200 | that condition holds after every run in which no transaction that started a block ends while a result is outstanding |
| TransactionTheorems.DestructorRestores | src/lib/pq/transaction.cpp:143-157 | the destructor of the current transaction does the same |
| TransactionDrops.DropRestores | include/tao/pq/transaction.hpp:69-85 | after any run within the transaction, any drop of a handle and any finish of a pipeline after which nobody keeps the transaction, but somebody the one below it, rolls back to its creation, under the same condition, however many newer transactions go with it; it is gone with the previous object current exactly in that case; while a result is outstanding the server stays as it is |
| TransactionDrops.OwnDropRestores | include/tao/pq/transaction.hpp:69-85 | in particular dropping the only handle of the current transaction, when its parent has a handle |
| TransactionTheorems.OwnSavepointIsFound | src/lib/pq/transaction.cpp:60-93 | while a nested transaction is unfinished, the most recent savepoint of its name is its own and holds the data of its start, whatever objects at reused addresses left behind |
| TransactionOutcomes.CommitOutcome | src/lib/pq/transaction.cpp:113-126 | for the transaction that started the block, with a result outstanding or not, connected or not: when `commit` returns, what is committed, and when the block stays open; in a failed block it returns and commits nothing |
| TransactionOutcomes.NestedCommitOutcome | src/lib/pq/transaction.cpp:81-86 | a nested commit leaves its work to the parent, and throws exactly in a failed block or when it cannot be sent |
| TransactionOutcomes.RollbackOutcome | src/lib/pq/transaction.cpp:128-141 | `rollback` of the transaction that started the block ends it if and only if the command can be sent; else it throws and leaves the block open |
| TransactionOutcomes.NestedRollbackOutcome | src/lib/pq/transaction.cpp:88-93 | `rollback` of a nested transaction goes back to its savepoint if and only if the command can be sent |
| TransactionOutcomes.DestructorIsRollback | src/lib/pq/transaction.cpp:143-157 | the destructor of the current transaction leaves server and connection as `rollback` does, in every case |
| TransactionOutcomes.DestructorEndsBlockIffIdle | src/lib/pq/connection.cpp:185-200 | the destructor of the transaction that started the block leaves the block open if and only if a result is outstanding |
| TransactionOutcomes.NestedDestructorOutcome | src/lib/pq/transaction.cpp:68-73 | the destructor of a nested transaction goes back to its savepoint if and only if no result is outstanding |
| TransactionOutcomes.CommitKeepsChainIffCurrent | src/lib/pq/transaction.cpp:115-125 | after `commit` the unfinished objects form a chain if and only if the object was the current one |
| TransactionOutcomes.RollbackKeepsChainIffCurrent | src/lib/pq/transaction.cpp:130-140 | the same for `rollback` |
| TransactionOutcomes.FinishKeepsChainIffCurrent | src/lib/pq/pipeline.cpp:31-38 | after `finish` they do if and only if the pipeline was the current one, or had ended before |
| TransactionOutcomes.OutOfOrderIsSilent | src/lib/pq/transaction.cpp:113-141 | `commit` and `rollback` of an object that is not the current one throw in every state, and leave the server, the outstanding result and all other objects as they are |
| TransactionOutcomes.OnlyTheCurrentSpeaks | src/lib/pq/transaction_base.cpp:30-46 | when one of the calls of an object changes anything on the server, the object is the current one, and no result is outstanding |
| TransactionOutcomes.RefusedChangesNothing | src/lib/pq/transaction.cpp:98-111 | a statement, a result or a creation that throws leaves everything as it was |
| TransactionOutcomes.BusyAfter | src/lib/pq/transaction_base.cpp:37-100 | a result is outstanding exactly from a statement that was sent until the result is fetched or the connection is lost |
| TransactionStray.StepStrays | src/lib/pq/connection.cpp:185-200 | a block is left to nobody exactly when the transaction that started it ends while a result is outstanding |
| TransactionStray.StrayWorkIsCommitted | src/lib/pq/connection.cpp:126-157 | in such a block, unless it has failed, the next transaction starts without an exception, and its commit makes the abandoned work permanent |
| TransactionExamples.FailedCommitIsSilent | src/lib/pq/transaction.cpp:113-126 | a run whose commit reports no error although nothing was committed |
| TransactionExamples.OutOfOrderCommit | src/lib/pq/transaction.cpp:113-126 | a run whose commit of the older of two transactions throws, leaves no chain, and has sent nothing |
| TransactionExamples.BusyDestructor | src/lib/pq/connection.cpp:185-200 | a run after which a destructor leaves the block open, with no object left |
| TransactionExamples.AbandonedWorkIsCommitted | src/lib/pq/connection.cpp:126-157 | a run in which a transaction without a statement commits the work of one that was destroyed |
| TransactionExamples.StrayRollback | src/lib/pq/transaction.cpp:128-141 | a run after which a rollback does not restore |
| TransactionRuns.StepRefines | src/lib/pq/transaction.cpp:98-157 | every single in-order call keeps the relation between objects, server and stack, and the stack makes the step that `StackStep` prescribes, which says frame by frame what goes |
| TransactionRuns.StepSucceeds | src/lib/pq/transaction.cpp:98-141 | exactly which calls return without an exception, in terms of the stack and of whether a result is outstanding |
| TransactionRuns.CreateRefines | src/lib/pq/transaction.cpp:98-111 | every creation pushes a frame with the present data, or changes nothing when it fails, and says when it does |
| TransactionRuns.ConstructRefines | include/tao/pq/transaction.hpp:62-67 | a constructor whose command fails leaves the chain as it was |
| TransactionRuns.CommitRefines | src/lib/pq/transaction.cpp:113-126 | `commit` of the current transaction removes its frame and keeps its work; while a result is outstanding the server keeps the block |
| TransactionRuns.RollbackRefines | src/lib/pq/transaction.cpp:128-141 | `rollback` of the current transaction removes its frame and undoes its work, or leaves it where it is while a result is outstanding |
| TransactionRuns.FinishRefines | src/lib/pq/pipeline.cpp:31-38 | finishing a pipeline removes its frame and exactly those that nobody keeps without it |
| TransactionRuns.ReleaseRefines | include/tao/pq/transaction.hpp:59-85 | dropping a handle removes exactly the frames that nobody keeps without it |
| TransactionRefinement.CollectRefines | include/tao/pq/transaction.hpp:59-85 | destroying objects without an owner, youngest first, gives up a top part of the stack, with or without the server being told; each unfinished one is current when it is destroyed |
| TransactionOwners.CollectKeeps | include/tao/pq/transaction.hpp:59-85 | what remains is exactly what a handle outside the library keeps, directly or through younger objects |
| TransactionOwners.CollectLoses | include/tao/pq/transaction.hpp:59-85 | the frames that go are exactly those of objects that nobody keeps |
| SavepointServer.LookupPushed | src/lib/pq/transaction.cpp:63-65 | a new savepoint hides older ones of its name and no others |
| TransactionSession.Session.Construct | include/tao/pq/transaction.hpp:62-74 | registration, the first command, and its undoing when that fails |
| TransactionSession.Session.End | src/lib/pq/transaction.cpp:113-141 | `v_reset` on every path, the command only for the current object |
| TransactionSession.Session.Commit | src/lib/pq/transaction.cpp:113-126 | the step of `commit`, of any object and in any state of the connection; in order also the step of the stack |
| TransactionSession.Session.Rollback | src/lib/pq/transaction.cpp:128-141 | the step of `rollback`, likewise |
| TransactionSession.Session.Destroy | src/lib/pq/transaction.cpp:68-73 | the destructors of derived and base class |
| TransactionSession.Session.Collect | include/tao/pq/transaction.hpp:59-74 | the chain of destructors that dropping an owner sets off |
| TransactionSession.Session.Open | src/lib/pq/connection.cpp:42-49 | only one top-level transaction at a time |
| TransactionSession.Session.OpenSubtransaction | src/lib/pq/transaction.cpp:98-105 | only on the current transaction; below a direct one it starts a block |
| TransactionSession.Session.FinishPipe | src/lib/pq/pipeline.cpp:31-38 | the step of `finish`, likewise; it throws while a result is outstanding, and the pipeline has ended all the same |
| TransactionSession.Session.Drop | include/tao/pq/transaction.hpp:59-85 | the step of dropping a handle, likewise, also while a result is outstanding |
| CopyText.CopyFromOfWritten | src/lib/pq/parameter_traits.cpp:40-53 | COPY FROM decodes what either side wrote as exactly the rows that were written, in order, NULL apart from every text |
| CopyText.FieldRoundTrip | include/tao/pq/parameter_traits_optional.hpp:77-86 | one field decodes to itself, and only NULL to NULL, the text backslash-N included |
| CopyText.NoEndMarker | src/lib/pq/parameter_traits.cpp:40-53 | no written line can be taken for the end marker |
| CopyText.ControlsAreEscaped | src/lib/pq/parameter_traits.cpp:40-53 | no control character from backspace to carriage return is written without a backslash in front of it |
| CopyText.TableWriterAppend | src/lib/pq/parameter_traits.cpp:40-53 | the loop appends the text with every special character escaped |
| CopyText.InsertIndexed | include/tao/pq/table_writer.hpp:55-63 | the buffer becomes the line of the row, the last tab replaced by the newline |
| CopyTransfer.WriteRows | include/tao/pq/table_writer.hpp:95-100 | the text of all inserted rows |
| CopyTransfer.StoreAndFetch | src/lib/pq/table_reader.cpp:69-164 | rows with columns that are inserted by a writer, stored, and iterated by a reader come back unchanged and in order, exactly when there are any |
| TableReader.TableReader.ParseData | src/lib/pq/table_reader.cpp:69-153 | for every line of COPY TO one entry per column, null exactly for NULL, every other at a NUL-terminated copy of its field in the changed buffer |
| TableReader.TableReader.ParseFields | src/lib/pq/table_reader.cpp:76-151 | the loop: writing stays behind reading, finished fields are not overwritten |
| TableReader.TableReader.FindBreak | src/lib/pq/table_reader.cpp:78 | `strpbrk` stops at the break behind a run of plain characters |
| TableReader.TableReader.MoveRun | src/lib/pq/table_reader.cpp:78-82 | a run of plain characters is moved down, what is ahead is untouched |
| TableReader.TableReader.EndText | src/lib/pq/table_reader.cpp:84-88 | the end of a text: its pointer is kept, a NUL is written over text already read |
| TableReader.TableReader.EndNull | src/lib/pq/table_reader.cpp:93-107 | the escape for NULL and the delimiter behind it |
| TableReader.TableReader.EndEscape | src/lib/pq/table_reader.cpp:109-135 | any other escape writes the character it stands for |
| TableReader.IterationIsExact | src/lib/pq/table_reader.cpp:155-164 | the loop gives exactly the rows if and only if the table has both columns and rows, or neither; it reads an entry that does not exist if and only if it has columns and no rows; without columns it sees nothing |
| TableReader.EmptyTableIsMisread | src/lib/pq/table_reader.cpp:155-159 | the table with one column and no row is misread |
| TableReader.TableReader.GetRawData | src/lib/pq/table_reader.cpp:52-67 | a line is read into a new buffer, or there is none left and the transaction is given up |
| TableReader.TableReader.GetRow | include/tao/pq/table_reader.hpp:69-73 | the next row is read and parsed; the end of the data is reported |
| TableReader.TableReader.Begin | src/lib/pq/table_reader.cpp:155-159 | the iterator has all columns, whether there is a row or not |
| TableReader.TableReader.Increment | include/tao/pq/table_reader.hpp:108-114 | the iterator loses its columns exactly at the end of the data |
| TableReader.TableReader.ReadRow | src/lib/pq/table_row.cpp:48-52 | the entries of the present row, or an entry that does not exist |
| TableReader.TableReader.AsContainer | include/tao/pq/table_reader.hpp:151-160 | the loop sees what `IterationIsExact` is about |
| TableReader.AsRead | src/lib/pq/table_reader.cpp:142-146 | the number of entries is the number of columns exactly for rows with a column |
| TableReader.RowIsFetched | include/tao/pq/table_reader.hpp:80-83 | the kept pointers give back the row |
| ArrayRoundTrip.RoundTrip | include/tao/pq/result_traits_array.hpp:82-93 | for every type and every value without NUL, reading the printed array gives the value up to hollow optionals, all input consumed, and the same value if and only if no optional holds a disengaged one directly |
| ArrayRoundTrip.ParsePrinted | include/tao/pq/result_traits_array.hpp:24-78 | framing: the parser takes exactly a printed value and stops at what follows it |
| ArrayRoundTrip.ParseAppended | src/lib/pq/parameter_traits.cpp:12-38 | whatever the text of an element is, "NULL" and the empty text included, `from` gets exactly that text |
| ArrayRoundTrip.NestedOptionalIsLost | include/tao/pq/parameter_traits_optional.hpp:66-75 | an engaged optional of a disengaged one is read as disengaged |
| ArrayExchange.PrintedArrives | include/tao/pq/parameter_traits_array.hpp:22-43 | for every value without NUL, the server reads the printed array as the same texts and NULLs, nested alike, if and only if every text is quoted or has no white space at its ends and does not spell NULL |
| ArrayExchange.InItemOfAppended | src/lib/pq/parameter_traits.cpp:12-38 | the same for one text, whatever follows it: else the server has another text, NULL or an error |
| ArrayExchange.ServerTextIsRead | include/tao/pq/result_traits_array.hpp:24-93 | for every type and value, reading what the server prints gives the value up to hollow optionals, if and only if no text with a semicolon is printed without quotes |
| ArrayExchange.ThereAndBack | include/tao/pq/result_traits_array.hpp:82-93 | a sent, stored and fetched array comes back under exactly these conditions |
| ArrayExchange.AdditionalDataThrows | include/tao/pq/result_traits_array.hpp:86-91 | anything behind a printed array is an exception |
| ArrayExchange.OtherDelimitersThrow | include/tao/pq/result_traits_array.hpp:66-75 | so is anything else than a delimiter or the closing brace behind a quoted element |
| ArrayExchange.NotAnArray | include/tao/pq/result_traits_array.hpp:48-50 | and a text that does not start with a brace |
| ArrayExamples.SemicolonSplits | src/lib/pq/result_traits_array.cpp:38-46 | two texts with a semicolon between them are stored as one, and come back as two |
| ArrayExamples.SpelledNullIsLost | src/lib/pq/parameter_traits.cpp:17-20 | every other spelling of NULL is stored as NULL |
| ArrayExamples.NewlineIsLost | src/lib/pq/parameter_traits.cpp:20 | a newline is stored as an empty array |
| ArrayExamples.ByteaElementArrives | include/tao/pq/parameter_traits.hpp:421-435 | the server has the bytes of a bytea element |
| ArrayExamples.ByteaElementIsRead | src/lib/pq/result_traits_array.cpp:15-36 | the text of the server's bytes comes through the parser unchanged |
| ArrayBounds.QuotedOutcome | src/lib/pq/result_traits_array.cpp:15-36 | exactly when `parse_quoted` returns, throws, or is led past the NUL |
| ArrayBounds.ParseStaysInside | include/tao/pq/result_traits_array.hpp:24-78 | for every type and text, `parse` is led past the NUL if and only if an element that it starts on, at any quoting level, has no closing quote and ends in the middle of an escape |
| ArrayBounds.ItemsStayInside | include/tao/pq/result_traits_array.hpp:58-77 | the same for the elements of an array |
| ArrayBounds.FromStaysInside | include/tao/pq/result_traits_array.hpp:82-93 | the same for `from` of a whole text |
| ArrayBounds.PrintedIsSafe | include/tao/pq/parameter_traits_array.hpp:28-43 | every printed value meets the condition, whatever follows it |
| ArrayBounds.ParseLeavesSuffix | include/tao/pq/result_traits_array.hpp:24-78 | whatever the text is, what `parse` leaves is a suffix of it |
| ArrayBounds.OneLevelIsSafe | include/tao/pq/result_traits_array.hpp:24-42 | for types without containers behind an optional, a text with an even run of backslashes at its end meets the condition |
| ArrayBounds.OverrunHappens | src/lib/pq/result_traits_array.cpp:18-24 | a text that does not, and that `from` reads beyond its end |
| ArrayLoops.ArrayAppend | src/lib/pq/parameter_traits.cpp:12-38 | the branches and the loop append the text of an element |
| ArrayLoops.AppendEscaped | src/lib/pq/parameter_traits.cpp:22-32 | the loop escapes quotes and backslashes and nothing else |
| ArrayLoops.ToArray | include/tao/pq/parameter_traits_array.hpp:28-43 | the recursive printer with its overwritten last comma |
| ArrayLoops.ToArrayLoop | include/tao/pq/parameter_traits_array.hpp:37-40 | the loop over the elements |
| ArrayLoops.AppendElement | include/tao/pq/parameter_traits_array.hpp:86-90 | a container behind an optional becomes one quoted text |
| ArrayLoops.ParseQuoted | src/lib/pq/result_traits_array.cpp:15-36 | the loop removes escapes up to the closing quote |
| ArrayLoops.ParseUnquoted | src/lib/pq/result_traits_array.cpp:38-46 | the text up to a delimiter, which is not consumed |
| ArrayLoops.ParseElements | include/tao/pq/result_traits_array.hpp:58-77 | the loop over the elements ends, and collects what the recursive parser gives |
| ArrayLoops.ParseValue | include/tao/pq/result_traits_array.hpp:24-56 | `parse`, for elements and for containers |
| ArrayLoops.FromText | include/tao/pq/result_traits_array.hpp:82-93 | `from`, with its check for additional data |
| Gen.FoldsLocate | include/tao/pq/internal/gen.hpp:25-32 | the folds give the one argument whose columns include the flat number, and the column inside it |
| Gen.FlatIndexIsBijective | include/tao/pq/internal/gen.hpp:25-41 | flat numbers and pairs of argument and column determine each other, sizes of zero included |
| Gen.FlatIndexKeepsOrder | include/tao/pq/internal/gen.hpp:34-35 | flat order is the lexicographic order of the pairs |
| Gen.PartialSumIsPrefix | include/tao/pq/internal/exclusive_scan.hpp:19-22 | the fold is the sum of the sizes in front |
| Gen.ConcatAt | include/tao/pq/transaction_base.hpp:85-96 | selecting through the folds reads the concatenation of all columns |
| Composite.ColumnIsCell | include/tao/pq/parameter_traits_tuple.hpp:46-50 | column by column, the forwarded columns are those of the value from left to right |
| Composite.PairIsLocated | include/tao/pq/parameter_traits_pair.hpp:47-51 | the forwarding of a pair |
| Composite.RoundTrip | include/tao/pq/result_traits_tuple.hpp:41-58 | for every tree of pairs, tuples and optionals, reading the flattened columns gives the value up to optionals without a set column, and the same value if and only if it has none of these |
| Composite.ReadBack | include/tao/pq/row.hpp:193-223 | the same at any offset in any slice: no out_of_range, no invalid slice |
| Composite.ReadIsFaithful | include/tao/pq/result_traits_pair.hpp:22-26 | whatever is read from a row has exactly the columns of the row, each used once, and the only possible exception is an unexpected NULL |
| Composite.ReadableIffFlattened | src/lib/pq/row.cpp:25-35 | a part of a row can be read if and only if it is the flattening of some value |
| Composite.OptionalIsNullIff | include/tao/pq/result_traits_optional.hpp:28-37 | an optional reads as disengaged if and only if all its columns are NULL |
| Composite.AsOutcome | include/tao/pq/row.hpp:216-223 | for every row, `as` gives a value if and only if the whole row is the flattening of some value, and then one with that flattening; out_of_range exactly when the widths differ |
| Composite.GetOutcome | include/tao/pq/row.hpp:193-208 | for every row and position, `get` gives a value if and only if the part there is the flattening of one; out_of_range exactly when the type reaches beyond the row or slice |
| Composite.SliceShows | src/lib/pq/row.cpp:25-35 | a slice shows exactly the columns that were asked for, and exists exactly when they belong to the row |
| Composite.ColumnShows | src/lib/pq/row.cpp:73-85 | a column is read exactly when the row or slice shows it, and is the one shown |
| Composite.AnyColumnSet | include/tao/pq/result_traits_optional.hpp:31-36 | the loop over the columns |
| RowNames.Index | src/lib/pq/row.cpp:43-61 | the lookup by name gives the first column of that name in the slice, and throws if and only if there is none |
| RowNames.FirstIsUnique | src/lib/pq/row.cpp:43-61 | at most one answer is right |
| Parameter.SendTraitsCarriesAll | include/tao/pq/transaction_base.hpp:85-103 | the four arrays of a direct statement carry the columns of all arguments in order |
| Parameter.Parameter.constructor | include/tao/pq/parameter.hpp:88-95 | a new object has nothing bound |
| Parameter.Parameter.Fill | include/tao/pq/parameter.hpp:102-109 | the four arrays get the columns behind those that are there |
| Parameter.Parameter.BindDirect | include/tao/pq/parameter.hpp:111-129 | the columns are appended and the argument is owned, or it throws and nothing changes; no array is overrun |
| Parameter.Parameter.CopyEntries | include/tao/pq/parameter.hpp:139-144 | the loop copies the entries of another object, or of this one |
| Parameter.Parameter.BindParameter | include/tao/pq/parameter.hpp:131-147 | the columns of another object, or of this one, are appended, or nothing changes |
| Parameter.Parameter.Bind | include/tao/pq/parameter.hpp:189-193 | the arguments are bound one after the other until one does not fit; those that are stored are owned, and nothing is released |
| Parameter.Parameter.Reset | include/tao/pq/parameter.hpp:195-204 | every argument ever stored is released by now, once, and the new ones are bound to an empty object, also when it throws |
| Parameter.Parameter.Destroy | include/tao/pq/parameter.hpp:165-177 | after the destructor every argument ever stored is released, once and in order |
| Parameter.Construct | include/tao/pq/parameter.hpp:158-163 | the constructor throws if and only if the columns do not fit; it then leaks the stored arguments before the one that does not fit, and leaks any if and only if one of these is not a parameter object |
| Parameter.Parameter.Send | include/tao/pq/transaction_base.hpp:132-136 | the arrays that are sent carry the bound columns |
| Parameter.BindIsConcat | include/tao/pq/parameter.hpp:189-193 | `bind` throws if and only if the columns do not fit; else they are appended in order |
| Parameter.BindKeepsFittingPrefix | include/tao/pq/parameter.hpp:189-193 | what is bound after `length_error` |
| Parameter.SendArguments | include/tao/pq/transaction_base.hpp:124-130 | a statement with parameter objects among its arguments never throws `length_error` and is the direct statement of all the columns |
| Bytea.Element | include/tao/pq/parameter_traits.hpp:421-435 | the filled buffer is the hex text with its backslash escaped |
| Bytea.UnescapeBytea | src/lib/pq/result_traits.cpp:33-55 | accepts exactly backslash, x and an even number of lowercase hex digits, and gives bytes that are written as that text |
| Bytea.From | src/lib/pq/result_traits.cpp:145-148 | the bytes that the server writes as the given text, on every text, and an exception when there are none |
| Bytea.WritesAsServer | include/tao/pq/parameter_traits.hpp:421-435 | the client's text of bytes is the server's |
| Bytea.ServerReadsBytes | include/tao/pq/parameter_traits.hpp:421-435 | the server reads the client's text as the bytes |
| Bytea.UnhexIff | src/lib/pq/result_traits.cpp:22-31 | `unhex` is the inverse of the table of digits |
| Bytea.IsHexTextIff | src/lib/pq/result_traits.cpp:33-43 | the accepted texts are those that some bytes are written as |
| Bytea.TextDeterminesBytes | include/tao/pq/parameter_traits.hpp:431-434 | different bytes have different texts |
| Bytea.CopiedBytesArrive | include/tao/pq/parameter_traits.hpp:437-441 | a bytea column of a COPY line decodes to the hex text of the bytes, which the server reads as the bytes |
| PoolTheorems.EveryItemIsInOnePlace | include/tao/pq/internal/pool.hpp:37-126 | under every interleaving each created item is at exactly one place: one position of one pool, borrowed, carried by one thread, or destroyed; pooled items name no pool |
| PoolTheorems.OneBorrower | include/tao/pq/internal/pool.hpp:114-126 | an item is handed out only when nobody has it, with one handle, and stops being borrowed only by the release of its last one |
| PoolTheorems.HandlesAreCounted | include/tao/pq/internal/pool.hpp:37-44 | along every run the number of handles is the number of those handed out and copied less those released, and the item is borrowed exactly while that is positive |
| PoolTheorems.DestroyedForGood | include/tao/pq/internal/pool.hpp:37-44 | a destroyed item never comes back |
| PoolTheorems.AttachedIsExact | include/tao/pq/internal/pool.hpp:82-111 | `attached()` is at every point the number of items whose deleter names the pool, without those in flight, less the allocations that have failed |
| PoolTheorems.AttachedAtRest | include/tao/pq/internal/pool.hpp:140-143 | when no thread is in an operation it is the number of borrowed items that name the pool if and only if no allocation has failed |
| PoolTheorems.AttachedLagsLittle | include/tao/pq/internal/pool.hpp:82-111 | apart from failed allocations it lags by at most one item for each thread in an operation |
| PoolTheorems.NeverBelowZero | include/tao/pq/internal/pool.hpp:40-42 | a counter that is about to be decremented is positive when no allocation has failed; in general if and only if fewer have failed than there are items that count |
| PoolTheorems.FailedAllocationUncounts | include/tao/pq/internal/pool.hpp:106-111 | one failed allocation in a pool without items takes the counter below zero |
| PoolPlaces.StepIsLocated | include/tao/pq/internal/pool.hpp:37-160 | every step of every thread keeps every item in its one place |
| PoolCounting.StepIsCounted | include/tao/pq/internal/pool.hpp:82-124 | every step, a failed allocation included, keeps every counter equal to the number of items it stands for, less the failures |
| PoolCounting.StepCounts | include/tao/pq/internal/pool.hpp:82-124 | a step changes for which pool an item counts only together with that pool's counter |
| PoolPlaces.KeptAreTheValid | include/tao/pq/internal/pool.hpp:145-158 | what `erase_invalid` keeps |
| Pool.Pool.Push | include/tao/pq/internal/pool.hpp:55-63 | valid items become the newest, others are destroyed |
| Pool.Pool.Pull | include/tao/pq/internal/pool.hpp:65-74 | the newest item, or none |
| Pool.Pool.Create | include/tao/pq/internal/pool.hpp:106-111 | a new item that names the pool, or no change, or, when the `shared_ptr` cannot be allocated, what the deleter does to a counter that was not raised |
| Pool.Pool.Get | include/tao/pq/internal/pool.hpp:114-126 | ends, hands out the newest valid item or a new one, destroys exactly the invalid items that are newer |
| Pool.Pool.Release | include/tao/pq/internal/pool.hpp:37-44 | the deleter: back into the pool it names, or destroyed |
| Pool.Pool.Detach | include/tao/pq/internal/pool.hpp:95-103 | the counter follows the deleter |
| Pool.Pool.Attach | include/tao/pq/internal/pool.hpp:82-93 | the counter follows the deleter, also when the item names the pool already |
| Pool.Pool.EraseInvalid | include/tao/pq/internal/pool.hpp:145-158 | the valid items stay in their order, exactly the others are destroyed, in their order |
| Pool.KeptInOrder | include/tao/pq/internal/pool.hpp:145-158 | in front of each kept item there are exactly the valid items that were in front of it |
| PoolAlone.GetAlone | include/tao/pq/internal/pool.hpp:114-126 | a thread that calls `get` without interruption, and is told which items are valid, does what the sequential `get` does |
| PoolAlone.ReleaseAlone | include/tao/pq/internal/pool.hpp:37-63 | the same for the deleter |
| PoolAlone.AttachAlone | include/tao/pq/internal/pool.hpp:82-103 | the same for `attach` to this pool and for `detach`, whatever pool the item names |
| PoolAlone.EraseAlone | include/tao/pq/internal/pool.hpp:145-158 | the same for `erase_invalid` |

## Left out

- TransactionTheorems.EveryRunRefinesTheStack: is about runs that commit, roll back and finish objects in order; the methods of `Session` are the steps of the state machine in the other cases too, and `CommitKeepsChainIffCurrent`, `RollbackKeepsChainIffCurrent` and `FinishKeepsChainIffCurrent` say that those break the chain.
- Pool.Pool.Get: for a single caller it allocates without failure when it makes an item; `Create` and the state machine have the failure.
- PoolAlone.ReleaseAlone: an item that names another pool, which is alive, goes to that one.
- Calls of a table reader after the end of its data, where the transaction that it would read from is null.
- RowNames.Index: the lookup in the whole result is a parameter, because it folds the case of names inside libpq.
- Loss of the connection while the server handles COMMIT, after which the client cannot know the outcome.
- Transaction control by statements of the user, and by other sessions; other sessions' changes between a START TRANSACTION and its first read.
- `commit` and `rollback` of an object that has ended already, which has no defined outcome.
- Pipeline mode beyond its place in the order of transactions: queued commands, synchronisation points, and a connection that cannot leave the mode because a result is outstanding.
- Results, sockets, polling, timeouts, notifications, logging, cancelling and large objects: calls of libpq or the operating system without visible semantics here.
- The server's check that the sub-arrays of an array have the same extents, explicit array bounds, and delimiters other than the comma; arrays of numbers and of characters, and set-like containers.
- The quoting of NUL characters and of multi-byte client encodings: texts are sequences of characters.
- The lifetime of the values that a `parameter` object refers to: a bound parameter object, and arguments bound by reference, have to outlive it; values are copied here.
- Wrap-around of `m_size`, of lengths and of the pool's unsigned counter; the numbers are unbounded here, and the counter below zero is a negative number.
- `field` objects of slices, iterators of rows, and aggregates: aggregates are tuples.
- Optionals of multi-column types on the parameter side are modelled although their `type` does not compile for tuples and pairs.
- The mutex of the pool as such: each critical section is one step; two threads that attach one item at a time are excluded, as the library does not protect the deleter.
- Numbers, floating point, dates, the table of SQLSTATE codes, and template machinery.
