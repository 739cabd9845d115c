# SQLodin: the client protocol and its qualification checks, verified

SQLodin is a replicated SQL service. This project models, in Dafny 4.11, the parts of the
repository whose correctness is argued rather than obvious, and proves the arguments:

- **The serializability checker** (`Bitmask`, `SerialHistory`, `HistorySearch`, `Campaign`). A
  memoised depth-first search over bitmasks of completed operations decides whether a recorded
  history has a legal serial order. It is proved sound and complete, to visit at most one state
  per mask, and its chaining from batch to batch is proved exact.
- **The store** (`Store`). One ordered log of requests with request identities, recorded
  outcomes, an optimistic revision and a session epoch, as the engine applies it. SQL itself is a
  deterministic function of the data and the body; a deferred foreign key is looked at by COMMIT
  only.
- **The native client** (`Client`). Retries under one identity, kept until the outcome is
  conclusive.
- **The protocol** (`Protocol`). Any number of client connections over a network that loses,
  repeats and delays messages, against the log, which writes enter through doors that each admit
  what they like: an invariant over every run, from which each identity takes effect at most once
  and no answer is misleading, and exactly what the doors must agree on.
- **The DB-API layer** (`DbApi`). Staged statements, previews at a fixed revision, savepoints,
  the aborted flag, autocommit and `executemany`, as classes that update their fields.
- **Strict serializability** (`Serializability`). DB-API transactions on many connections over the
  protocol: every finished transaction, every query in autocommit, and every commit whose write took
  effect though nobody learned of it yet, has one serial point at which all its previews told the
  truth. Transactions whose connection was closed or lost stay in the picture until their write is
  recovered.
- **The class is one of those connections** (`Simulation`). What an operation of the DB-API classes
  does to the fields is a sequence of the steps that `Serializability` is about.
- **The statement classifier** (`KindScanner`). One pass over the text equals lexing followed by
  classification; what is quoted, commented or in parentheses cannot change the result.
- **The transfer workload and its audit** (`Transfers`, `Audit`). A period of 51 and a bound of
  153, four computations of balances that agree, and exactly what the offline audit shows when
  columns may be NULL.
- **The process controller** (`ProcessCluster`) and **its framing** (`Framing`).
- **The group-commit reference** (`GroupCommit`).
- **Two generators whose totals the checks trust** (`CapacityLoad`, `WorkloadSplit`).
- `Common` and `Division` hold list, set and arithmetic facts.

Code that changes state step by step is a class or a method with loops, proved against a function
or predicate on values; the results over whole runs are lemmas about those.

What such a function computes is said a second time without it, by a lemma whose name ends in
`Meaning`: over positions in a text or a history, over databases from one statement to the next, over
the words that the service answers, or as a decision table.

## How the pieces meet

`DbApi.Connection.Valid` is kept by every operation of the connection and its cursors. Its central
clause is that every non-empty prefix of the staged statements was previewed with success at the
read version in force. That clause is all that `Serializability` lets a transaction rely on
(`Restage` is enabled by nothing else).

`Simulation` joins the two. Each of its methods calls the operation of the class whose name it
bears, in a world in which the session is what the fields say (`Simulation.Stands`), and proves that
the world has a sequence of that session's own steps to one in which the session is what the fields
have become, provided that the service was honest: that the epoch and the read version were those of
a fresh read and that new previews were true of some replica. A commit is such a sequence and, at any
later time, the network step that brings its answer: the class waits for it inside the call and the
world does not (`Simulation.Concludes`). `ExecuteAlone` and `ExecuteManyAlone` are the calls in
autocommit, from begin to commit. Releasing a savepoint and setting autocommit change no field that
the world has.

Recovery is joined in both of its forms. `ResolvePending` on the connection that lost track of its
commit settles the write and leaves the aborted fields in place until a rollback. After a close or a
crash a connection opened from the saved write is the connection that saved it
(`Protocol.RecoveryRestoresTheClient`), and the old transaction is still there, left behind
(`Simulation.Recover`); the answer that resolves the write finishes it.

`Client.Submitted` and `Client.Settle`, which the client class is proved against, are the functions
the steps of `Protocol` use or are made of.

## Where the code falls short of a wished-for property

- **A previewed commit can still fail a constraint.** A preview never runs COMMIT, and a deferred
  foreign key is only looked at there (`src/engine_outcomes.odin:71-80`,
  `src/engine_optimistic.odin:46-59`). `Serializability.DeferredKeyFailsCommit` gives a run;
  `Serializability.CommitOfPreviewed` says exactly when each of the three possible answers comes.
- **The offline audit passes on ledgers that are not the prescribed one.** The columns `tx` and
  `account` have no declared type (`tools/check_process_cluster.py:280`,
  `tools/run_cluster_soak.py:128`), SQL comparisons with NULL are not true, NULLs group together, and a
  text that looks like a number joins and satisfies a foreign key like the number but is a group of its
  own. `Audit.AuditIsExact` proves that a passing audit shows the prescribed database if and only if
  every cell of the ledger is stored as an integer. `Audit.NullDeltaPasses`,
  `Audit.NullTransactionPasses`, `Audit.RealAccountPasses` and `Audit.TextTransactionPasses` are four
  ledgers that pass; in the last one transfer 2 has no ledger row at all.
- **Closing the group worker with requests outstanding** can group the sentinel, after which the
  last requests are never answered. `GroupCommit.GroupReference.Close` says when: unless full groups
  use up what was outstanding. With nothing outstanding the worker ends cleanly;
  `GroupCommit.StrandedRequest` is one request outstanding with groups of sixteen.
- **The statement splitter with three rows per block** reaches past the table of 1024 rows for the
  last key. `WorkloadSplit.TotalIsExactWhenRowsDivide` proves that the expected total holds for
  every draw if and only if the block size divides 1024.
- **A resumed capacity load** crossed by the insert that the interrupted one left uncertain can end
  with more rows than its target, and then its verification fails. `CapacityLoad.Resume` gives the
  final table for every old insert, landing at any step or never; `CapacityLoad.ResumedVerifies`
  proves that verification accepts if and only if the insert was `Harmless`, a condition on the row
  counts, the kind of the insert and the step at which it lands. `CapacityLoad.InterruptedFixture`
  runs into it: three MiB interrupted at 512 rows, resumed with a target of two MiB.
- **Nodes that admit different writes** split an identity: the client reuses a number that one node
  turned down, while a delayed copy of the first write may be admitted by another.
  `Protocol.OneContentIfDoorsAgree` proves that the log can come to hold two contents of an identity
  if and only if some write is admitted by one node and turned down by another, with a second content
  admitted somewhere; `Protocol.DisagreementConfuses` is a run in which a sole owner is told
  Identity_Conflict. See the first assumption below for why nodes of one version agree.

## Model

| member | source | states |
|---|---|---|
| Bitmask.TestBit | tools/check_transaction_history.py:40 | `mask & (1 << i)` is non-zero exactly when operation i is in the set the mask stands for |
| Bitmask.TestSubset | tools/check_transaction_history.py:40 | `before & ~mask` is zero exactly when every predecessor is in the set |
| Bitmask.SetBit | tools/check_transaction_history.py:49 | or-ing in `1 << i` adds one member and nothing else |
| Bitmask.FullMembers | tools/check_transaction_history.py:29 | `(1 << n) - 1` stands for all positions |
| SerialHistory.ReplayMeaning | tools/check_transaction_history.py:39-48 | an order replays if and only if there are states between its operations that explain every observation and every recorded result, a transaction switching the membership of its key |
| SerialHistory.CompletedMeaning | tools/check_transaction_history.py:26 | the completed operations are those of the history that returned ok, each as often as the history has it, and no other |
| SerialHistory.ExplanationMeaning | tools/check_transaction_history.py:19-49 | a legal order of the checker is an explanation of the recorded history: its completed operations in an order that respects real time, from the initial keys in ascending order through states that explain every observation |
| SerialHistory.FinalState | tools/check_transaction_history.py:42-46 | the end state of a legal order holds in ascending order the keys switched an odd number of times |
| SerialHistory.Confluence | tools/check_transaction_history.py:35-49 | any two legal orders of the same operations end in the same state |
| SerialHistory.CompletesHead | tools/check_transaction_history.py:39-51 | every completion starts with an operation that the loop would take |
| SerialHistory.CompletesCons | tools/check_transaction_history.py:39-51 | an enabled operation followed by a completion of the rest is a completion |
| HistorySearch.PrecedenceMembers | tools/check_transaction_history.py:27-28 | the precedence mask of an operation holds exactly those that ended before it started |
| HistorySearch.Search.OneStatePerMask | tools/check_transaction_history.py:35-38 | all paths that take the same operations reach the same state |
| HistorySearch.Search.VisitedBound | tools/check_transaction_history.py:30-38 | the shared visited set never exceeds 2^n keys |
| HistorySearch.Search.Visit | tools/check_transaction_history.py:32-52 | the recursion ends; with the set of visited keys shared between branches a result is a completion of the present path, and no result means that none exists |
| HistorySearch.Search.TryOperation | tools/check_transaction_history.py:39-51 | one turn of the loop: skipped operations lead nowhere, taken ones are searched |
| HistorySearch.FindSerialOrder | tools/check_transaction_history.py:19-54 | a witness comes back if and only if the recorded history has an explanation, stated over the history itself; the witness holds the identifiers, in order, and the last state of one |
| Campaign.MadeProgress | tools/check_transaction_history.py:139-140 | true exactly if some transaction of the batch returned ok |
| Campaign.Run | tools/check_transaction_history.py:119-140 | the verdict and the chained state of the first segment that fails; passing means that each segment passes from the end state of the one before |
| Campaign.OutcomeMeaning | tools/check_transaction_history.py:119-140 | a failing campaign names the first segment that fails and why: an anchor that saw something else, a batch without explanation, or one that committed nothing |
| Campaign.PassingSerializes | tools/check_transaction_history.py:119-158 | if all checks pass, the concatenated witnesses with the anchor reads are a legal serial order of the whole run |
| Campaign.SerializablePasses | tools/check_transaction_history.py:119-158 | a serializable whole run with separated segments and progress passes every check |
| Campaign.ChainingIsExact | tools/check_transaction_history.py:114-158 | on separated segments the campaign accepts if and only if the whole run has one legal order and every batch made progress |
| Store.AtMostOnce | src/engine_sessions.odin:51-107 | a (session, epoch, sequence) takes effect at most once in any log |
| Store.OneRecordedOutcome | src/engine_sessions.odin:75-89 | after a conclusive answer every later request of the identity gets that very outcome, an identity conflict if its content differs, or Expired |
| Store.RetiredForGood | src/engine_session_epoch.odin:26-38 | a request of a retired epoch is answered Expired and changes nothing, now and later |
| Store.RowOrigin | src/engine_sessions.odin:117-132 | a recorded outcome was given out at the log position it names, by that very write |
| Store.AppliedMeansEffect | src/engine_outcomes.odin:47-83 | an Applied answer, fresh or replayed, stands for the one effective position it names |
| Store.RejectedMeansNoEffect | src/engine_outcomes.odin:141-162 | a recorded rejection means no effect of that write anywhere in the log |
| Store.RetiresOnce | src/engine_session_epoch.odin:26-38 | a retirement sent again advances the epoch at most once in all; the later copy is answered Applied exactly while the epoch is still the one it asked for |
| Store.ApplyMeaning | src/engine_outcomes.odin:47-162 | a decision table: what a write, a retirement or a barrier is answered and what it leaves, from the epoch, the session row, the room for sessions, the number, the revision and the result of the body |
| Store.VersionIdentifiesData | src/engine_optimistic.odin:6-27 | the revision never decreases, and positions with one revision hold one database |
| Store.RevisionMoves | src/engine_optimistic.odin:6-27 | the revision moves exactly where a write takes effect or a retirement is acknowledged, never at rejections, repeats and barriers, and then it names the next position |
| Store.EffectOf | src/engine_outcomes.odin:85-128 | the data change at effective positions only, to what the body makes of them, and under a read version only if it is the revision there |
| Client.FinalMeaning | languages/python/src/sqlodin/client.py:245-270 | which answers end a call: the right cluster and protocol, well formed, a write's own number, an empty word exactly with a good status, and no request for another attempt |
| Client.Called | languages/python/src/sqlodin/client.py:235-256 | a call returns the first valid answer that is not to be retried, none before it being one; if there is none, it is a connection error |
| Client.AskedMeaning | languages/python/src/sqlodin/client.py:228-256 | a call whose error answers are raised, word by word: conflicts, constraints and other query errors |
| Client.Connection.constructor | languages/python/src/sqlodin/client.py:62-78 | a connection opened from a saved pending write takes over its session, number, epoch and write |
| Client.Connection.Exchanges | languages/python/src/sqlodin/client.py:235-256 | every attempt that does not end the call moves to the next endpoint in turn; the result is that of `Called` |
| Client.Connection.Resolve | languages/python/src/sqlodin/client.py:125-146 | the pending write is given up exactly at a conclusive answer; the number advances unless the service refused to look at the write |
| Client.ResolvedMeaning | languages/python/src/sqlodin/client.py:125-146 | a resolution word by word: success, conflict, constraint and other rejections settle the write and advance the number; a refusal settles it and frees the number; Expired, Identity_Conflict and Session_Limit, an unknown word and no answer leave everything as it is |
| Client.Connection.ResolvePending | languages/python/src/sqlodin/client.py:117-123 | a retry of the saved identity, or an error when closed or nothing is pending |
| Client.Connection.SessionEpoch | languages/python/src/sqlodin/client.py:178-190 | the epoch of a fresh read; zero from a service that does not know the operation; malformed values are connection errors |
| Client.Connection.ExecutePrepared | languages/python/src/sqlodin/client.py:109-115 | a second write is refused while one is pending; the epoch is discovered once; the new write is pending before anything is sent |
| Client.Connection.ExecuteWrite | languages/python/src/sqlodin/client.py:102-107 | the same behind the check that the connection is open |
| Client.Connection.RetireSessions | languages/python/src/sqlodin/client.py:192-210 | success means nothing of its own unresolved, an open connection, and an epoch past the expected one from the first valid final answer; otherwise which error comes when |
| Client.Connection.Ask | languages/python/src/sqlodin/client.py:287-294 | a call whose error answers are raised: conflicts, constraints and other query errors are told apart |
| Client.Connection.BeginOptimistic | languages/python/src/sqlodin/client.py:272-285 | a fresh revision between 1 and 2^63-1, and the epoch if none was known |
| Client.Begun | languages/python/src/sqlodin/client.py:272-285 | a known epoch is never replaced; success gives an epoch and a revision in range |
| Client.BegunMeaning | languages/python/src/sqlodin/client.py:272-285 | a begin from the first answer that ends the call: the epoch it may adopt, the revision in range, and the error otherwise |
| Client.PendingUntilConclusive | languages/python/src/sqlodin/client.py:125-146 | a pending write either stays with its whole retry state untouched or was settled by a valid conclusive answer among the attempts |
| Client.DiscoveredMeaning | languages/python/src/sqlodin/client.py:178-190 | the epoch is that of the first valid final answer: what it carries if it is in range, zero exactly from a service that does not know the operation, an error otherwise |
| Client.SubmittedMeaning | languages/python/src/sqlodin/client.py:109-146 | a new write ends in one of three ways: nothing was sent, for a reason that is named; it is pending under the identity of this session, epoch and number; or that identity was settled by the first valid final answer, as the resolution says |
| Protocol.NextInv | languages/python/src/sqlodin/client.py:109-146 | every step of any client, the network or the log keeps the protocol invariant |
| Protocol.RunInv | languages/python/src/sqlodin/client.py:109-146 | the invariant holds at every point of every run, whatever the nodes admit |
| Protocol.RunSync | src/engine_sessions.odin:96-107 | while the nodes agree on what was sent, every session row is in step with its client at every point of every run |
| Protocol.OneContentPerIdentity | languages/python/src/sqlodin/client.py:141-142 | different content is sent under one identity only after one of the two was answered Invalid_Request or Unsupported |
| Protocol.OneContentIfDoorsAgree | languages/python/src/sqlodin/client.py:141-142 | from any point of any run on, the log can come to hold two contents of the identity a client uses next if and only if nodes disagree on a write of that identity |
| Protocol.OwnerIsNeverConfused | src/engine_sessions.odin:79-105 | a session with one owner is never told Identity_Conflict or Sequence_Gap while the nodes agree on the writes that were sent |
| Protocol.DisagreementConfuses | src/engine_sessions.odin:79-90 | the agreement is needed: a run in which a sole owner is told Identity_Conflict |
| Protocol.AcknowledgedOnce | languages/python/src/sqlodin/client.py:140-146 | an acknowledged write took effect exactly once, with the reported outcome |
| Protocol.RejectedNever | languages/python/src/sqlodin/client.py:143-145 | a write reported as rejected has no effect, then or at any later time of the run |
| Protocol.TurnedDownForGood | languages/python/src/sqlodin/client.py:137-142 | a write answered Invalid_Request or Unsupported can be ordered at some later time if and only if some other node admits it |
| Protocol.RecoveryRestoresTheClient | languages/python/src/sqlodin/client.py:70-73 | the pending write alone determines the retry state of the client that holds it |
| Protocol.PendingIsKept | languages/python/src/sqlodin/client.py:125-140 | a pending write is kept unchanged until some answer settled it |
| Protocol.AnswerCanBeLate | languages/python/src/sqlodin/client.py:117-129 | while its write stays pending, the answer of any ordered copy can come at every later point of the run, with the same outcome however far the log has grown |
| DbApi.Connection.constructor | languages/python/src/sqlodin/dbapi.py:107-114 | nothing is open or staged |
| DbApi.Connection.Clear | languages/python/src/sqlodin/dbapi.py:162-166 | forgets version, statements, savepoints and the aborted flag, and nothing else |
| DbApi.Connection.Begin | languages/python/src/sqlodin/dbapi.py:133-140 | the read version is fetched once per transaction; a failure aborts, and the answers say with which error |
| DbApi.Connection.Previewed | languages/python/src/sqlodin/dbapi.py:156-160 | text errors come before any request, then the version, then the preview; only a success is remembered |
| DbApi.Connection.Append | languages/python/src/sqlodin/dbapi.py:247-249 | a candidate list replaces the staged one only when it was previewed, so every prefix stays previewed |
| DbApi.Connection.Commit | languages/python/src/sqlodin/dbapi.py:172-182 | exactly the staged body goes out, once, under the version it was previewed at; the first final answer decides: none for Applied, SerializationError for Conflict, IntegrityError for Constraint, ProgrammingError for the other rejections, and OperationalError with that very write while nothing is known; a failure aborts and keeps everything; nothing staged means nothing sent |
| DbApi.SubmissionMeaning | languages/python/src/sqlodin/dbapi.py:32-43 | the same of every submission, with DataError for a number or revision out of range |
| DbApi.CallMeaning | languages/python/src/sqlodin/dbapi.py:32-43 | the errors of queries and previews, from the answers |
| DbApi.BeginMeaning | languages/python/src/sqlodin/dbapi.py:133-140 | the errors of a begin, from the answers |
| DbApi.BlockedMeaning | languages/python/src/sqlodin/dbapi.py:126-131 | closed, unresolved and aborted connections refuse in this order, each with its error |
| DbApi.Connection.StagedComposes | languages/python/src/sqlodin/dbapi.py:172-178 | a commit never meets an invalid body: the whole list was composed when it was previewed |
| DbApi.Connection.Rollback | languages/python/src/sqlodin/dbapi.py:184-186 | allowed when aborted, not with a commit unresolved |
| DbApi.Connection.Close | languages/python/src/sqlodin/dbapi.py:208-211 | clears, and closes both connections |
| DbApi.Connection.SetAutocommit | languages/python/src/sqlodin/dbapi.py:116-124 | refused while a read version is held |
| DbApi.Connection.Savepoint | languages/python/src/sqlodin/dbapi.py:188-191 | an integer mark is pushed that stands for a snapshot of the whole statement list |
| DbApi.Connection.SavepointIndex | languages/python/src/sqlodin/dbapi.py:193-197 | a name means the last savepoint taken under it |
| DbApi.Connection.RollbackSavepoint | languages/python/src/sqlodin/dbapi.py:199-202 | restores the very list of the snapshot, keeps this savepoint and drops the later ones; every prefix left was previewed |
| DbApi.Connection.RestoredMarks | languages/python/src/sqlodin/dbapi.py:199-202 | after a rollback the remaining marks still stand for their snapshots and stay in order |
| DbApi.Connection.MarkedHere | languages/python/src/sqlodin/dbapi.py:188-191 | a mark at the end of the list stands for a snapshot of it and keeps the marks in order |
| DbApi.Connection.ReleaseSavepoint | languages/python/src/sqlodin/dbapi.py:204-206 | drops this and later savepoints and leaves the statements |
| DbApi.Cursor.constructor | languages/python/src/sqlodin/dbapi.py:217-222 | no result and no row count yet |
| DbApi.Cursor.Handle | languages/python/src/sqlodin/dbapi.py:252-261 | which error is raised; autocommit starts over unless a commit is unresolved; a transaction is aborted by a changed revision or a lost connection only |
| DbApi.Cursor.AbortMeaning | languages/python/src/sqlodin/dbapi.py:252-261 | a transaction is aborted exactly by a begin that failed, a Conflict, and a service that does not answer |
| DbApi.Cursor.Ask | languages/python/src/sqlodin/dbapi.py:236-245 | a query in a transaction is a preview on the staged statements, in autocommit a read of its own; the caller gets that answer or that failure |
| DbApi.Cursor.Stage | languages/python/src/sqlodin/dbapi.py:246-250 | a write is staged exactly when the list with it was previewed; otherwise nothing changes but the aborted flag |
| DbApi.Cursor.StageAndCommit | languages/python/src/sqlodin/dbapi.py:246-261 | an autocommitted write submits that one statement under a revision fetched for it, and leaves something open only if its fate is unknown |
| DbApi.Cursor.StatementMeaning | languages/python/src/sqlodin/dbapi.py:228-262 | what a statement comes to, from the answers: its text is checked, then the transaction begins if it has not, then the preview or the query decides |
| DbApi.Cursor.AloneMeaning | languages/python/src/sqlodin/dbapi.py:246-262 | an autocommitted write: its preview, and once that is good the answer to its commit |
| DbApi.Cursor.Execute | languages/python/src/sqlodin/dbapi.py:228-262 | classification errors change nothing; answers, errors, staged list, aborted flag and savepoints for queries and writes in both modes, the errors also from the answers |
| DbApi.Cursor.ExecuteRow | languages/python/src/sqlodin/dbapi.py:278-280 | one row of a batch is staged behind the others, or nothing changes |
| DbApi.Cursor.StageRow | languages/python/src/sqlodin/dbapi.py:278-280 | one turn of the loop keeps the account of what is staged and previewed |
| DbApi.Cursor.RowMeaning | languages/python/src/sqlodin/dbapi.py:276-281 | what a row of a batch comes to, from the answers |
| DbApi.Cursor.StageAll | languages/python/src/sqlodin/dbapi.py:276-281 | rows are previewed and staged in order up to the first failure; the row count is the sum |
| DbApi.Cursor.Restore | languages/python/src/sqlodin/dbapi.py:283-286 | back to exactly the statements from before the call, with savepoints intact |
| DbApi.Cursor.FinishBatch | languages/python/src/sqlodin/dbapi.py:282-288 | autocommit is restored; its one commit carries the whole batch |
| DbApi.Cursor.StageBatch | languages/python/src/sqlodin/dbapi.py:272-281 | the rows staged with autocommit off, or the failure of the first that was not |
| DbApi.Cursor.RunBatch | languages/python/src/sqlodin/dbapi.py:272-288 | the batch with autocommit switched off in between |
| DbApi.Cursor.ExecuteMany | languages/python/src/sqlodin/dbapi.py:264-289 | all rows or none in a transaction, one commit of exactly the rows in autocommit, more than eight rows or a query refused with nothing changed; the answers of the rows, and the error of the first failing row or of the final commit |
| Serializability.EffectAfterBegin | languages/python/src/sqlodin/dbapi.py:172-182 | a commit under a read version took effect no earlier than the transaction began, on the data it began with |
| Serializability.AcknowledgedPoint | languages/python/src/sqlodin/client.py:140-146 | an acknowledged commit took effect between begin and acknowledgement |
| Serializability.RunInv | languages/python/src/sqlodin/dbapi.py:133-186 | in every run every active and finished transaction is consistent with the database it began on |
| Serializability.ReadInv | languages/python/src/sqlodin/dbapi.py:237-239 | a query in autocommit is a finished transaction of its own, consistent with the log it read |
| Serializability.LogIsSerial | src/engine_outcomes.odin:47-83 | the database at any log position is what the committed bodies make one by one |
| Serializability.StrictlySerializable | specs/transaction-order.typ:70-76 | every finished transaction has exactly one serial point, between its begin and its end, at which every preview told the truth and after which its body is the next in the serial history; read-only transactions and commits resolved by recovery included |
| Serializability.UnresolvedIsSerial | languages/python/README.md:68-92 | a commit that was sent has exactly one such point as soon as its write takes effect, also if its connection is gone and nobody ever learns of it |
| Serializability.UnresolvedInRealTime | specs/transaction-order.typ:78-82 | that point comes after those of all transactions that had ended when it began |
| Serializability.RealTimeOrder | specs/transaction-order.typ:78-82 | serial points respect real time, and no two transactions share a write |
| Serializability.CommitOfPreviewed | src/engine_outcomes.odin:71-94 | a previewed commit is answered Conflict exactly if the revision moved, Constraint exactly if a deferred key is left violated, Applied otherwise |
| Serializability.DeferredKeyFailsCommit | src/engine_outcomes.odin:71-80 | a run in which a previewed commit on an unchanged database is answered Constraint |
| Simulation.WorkIsSteps | languages/python/src/sqlodin/dbapi.py:133-160 | whatever an operation short of a commit does to a transaction is at most one begin, then previews, one change of the staged list and perhaps an abort |
| Simulation.ClearIsSteps | languages/python/src/sqlodin/dbapi.py:162-166 | forgetting a transaction is one step of the world, or none; while its write is unresolved it is left behind, not dropped |
| Simulation.EmptyCommitIsSteps | languages/python/src/sqlodin/dbapi.py:172-182 | a commit with nothing staged finishes the transaction without a write |
| Simulation.CommitIsSteps | languages/python/src/sqlodin/dbapi.py:172-182 | the first half of a commit: the staged body becomes the pending write, under the version it was previewed at |
| Simulation.AnswerIsStep | languages/python/src/sqlodin/client.py:117-146 | the second half, whenever and on whichever connection it comes: the network step that brings an answer does to the session what `resolve_pending` does, and for an applied commit what `commit` does; the transaction is then a finished one, also if its connection had given it up, and after any other conclusive answer it is still there, aborted |
| Simulation.Execute | languages/python/src/sqlodin/dbapi.py:228-262 | `execute` in a transaction is a sequence of steps of its session |
| Simulation.ExecuteAlone | languages/python/src/sqlodin/dbapi.py:246-262 | `execute` of a write in autocommit: a begin, one preview, the staged statement, and a commit that ends as the class says |
| Simulation.ExecuteMany | languages/python/src/sqlodin/dbapi.py:264-289 | so is `executemany` in a transaction |
| Simulation.ExecuteManyAlone | languages/python/src/sqlodin/dbapi.py:264-289 | so is `executemany` in autocommit, with a preview for each row and one commit of all of them |
| Simulation.Query | languages/python/src/sqlodin/dbapi.py:236-245 | an answered query in autocommit is one read of the present log; an unanswered one is no step |
| Simulation.Savepoint | languages/python/src/sqlodin/dbapi.py:188-191 | taking a savepoint is at most a begin |
| Simulation.RollbackSavepoint | languages/python/src/sqlodin/dbapi.py:199-202 | rolling back to one is a change of the staged list to one the previews back |
| Simulation.Rollback | languages/python/src/sqlodin/dbapi.py:184-186 | a rollback abandons the transaction |
| Simulation.Close | languages/python/src/sqlodin/dbapi.py:208-211 | so does closing; while the fate of a commit is not known the transaction is left behind |
| Simulation.Commit | languages/python/src/sqlodin/dbapi.py:172-182 | a commit leads to a world where the session is what the class has become, or to one that waits and that the answer the client saw takes there; a success is a finished transaction with that very write |
| Simulation.ResolvePending | languages/python/src/sqlodin/client.py:117-123 | resolving a lost commit on its own connection leads where the class is, with the aborted fields left over; a success is the finished transaction |
| Simulation.Recover | languages/python/README.md:81-86 | a connection opened from the saved write is the session as the world knows it, with the old transaction left behind |
| KindScanner.IndexOfIsFirst | languages/python/src/sqlodin/dbapi.py:52-56 | the search finds the first occurrence, or there is none |
| KindScanner.PassWord | languages/python/src/sqlodin/dbapi.py:79-85 | inside parentheses a word may be passed character by character |
| KindScanner.ScanQuote | languages/python/src/sqlodin/dbapi.py:58-69 | ends behind the closing quote, doubled ones inside except for brackets, or reports that there is none |
| KindScanner.ScanWord | languages/python/src/sqlodin/dbapi.py:79-82 | ends behind the last character of the word |
| KindScanner.SkipRegion | languages/python/src/sqlodin/dbapi.py:51-69 | comments and quoted text are passed without effect, unterminated ones reported |
| KindScanner.LexMeaning | languages/python/src/sqlodin/dbapi.py:46-85 | lexing is the one way to cut the text into pieces: comments, quoted texts with their marks doubled, words, marks; it fails exactly if there is none |
| KindScanner.TopLevelMeaning | languages/python/src/sqlodin/dbapi.py:70-85 | the words and semicolons found are those with as many parentheses opened as closed before them, in order and in upper case |
| KindScanner.ClassifyMeaning | languages/python/src/sqlodin/dbapi.py:86-98 | when a statement is a query, a write, not supported or malformed, each an if-and-only-if over the positions of its words |
| KindScanner.ScanKind | languages/python/src/sqlodin/dbapi.py:46-85 | the one pass ends; its result is that of lexing followed by classification, and what the pieces of the text make it |
| KindScanner.ClassifyWords | languages/python/src/sqlodin/dbapi.py:86-98 | the classification of the words that were found, by their positions |
| KindScanner.SameAfterBoundary | languages/python/src/sqlodin/dbapi.py:46-85 | texts that classify alike may replace each other after any lexical boundary |
| KindScanner.QuotedTextIsOpaque | languages/python/src/sqlodin/dbapi.py:58-69 | replacing one closed quoted region by another never changes the classification |
| KindScanner.CommentIsBlank | languages/python/src/sqlodin/dbapi.py:51-57 | nor does replacing a comment by white space |
| KindScanner.GroupVanishes | languages/python/src/sqlodin/dbapi.py:70-85 | a balanced group in parentheses adds no words and no semicolons |
| Transfers.Seventeen | tools/check_process_cluster.py:264-271 | seventeen amounts three apart always make 153 |
| Transfers.SpentPerPeriod | tools/check_process_cluster.py:264-271 | in any 51 transfers each account spends exactly 153 |
| Transfers.DriftRepeats | tools/check_process_cluster.py:264-271 | balances come back after every 51 transfers |
| Transfers.DriftIsSmall | tools/check_process_cluster.py:264-271 | no balance ever moves further than 153 |
| Transfers.NeverNegative | tools/check_process_cluster.py:275-277 | the CHECK on balances cannot fire for any part of a wave in any order, even half way through a transfer |
| Transfers.BalancesAgree | tools/check_process_cluster.py:234-238 | computations over the same transfers in any order agree, and the accounts hold three million together |
| Transfers.VerifyBalances | tools/check_process_cluster.py:234-238 | the fold of `verify` |
| Transfers.ClosedFormAgrees | tools/check_process_cluster.py:315-316 | the expected balance of the first account |
| Transfers.Transfer | tools/run_cluster_soak.py:206-208 | one transfer's effect on the three balances |
| Transfers.Issue | tools/run_cluster_soak.py:200-208 | one drawn write: its session number and its effect |
| Transfers.Round | tools/run_cluster_soak.py:195-208 | the writes of one round |
| Transfers.Soak | tools/run_cluster_soak.py:193-217 | balances and session numbers of the soak, and the identity of every request |
| Transfers.SessionsAreNumbered | tools/run_cluster_soak.py:200-205 | no two requests share an identity, a round has one per session, and sessions count without gaps |
| Transfers.SoakMeetsClosedForm | tools/run_cluster_soak.py:218-221 | the balance the soak's reads expect is that of the closed form |
| Audit.Replay | tools/qualification_worker.py:98-107 | the row loop accepts exactly transfers 1 to n and computes their balances |
| Audit.Post | tools/qualification_worker.py:105-106 | one row's effect on the balances |
| Audit.Check | tools/qualification_worker.py:78-120 | the audit ends without an error if and only if its conditions hold, with SQL's three-valued comparisons and its storage classes: which comparisons read a text as a number, and what GROUP BY keeps apart |
| Audit.MismatchMeaning | tools/qualification_worker.py:111-113 | a ledger row is reported exactly if it is neither the debit nor the credit for certain; a NULL leaves that open |
| Audit.KeyMeaning | tools/qualification_worker.py:111 | what joins a transfer or satisfies a foreign key: the number, or a text that looks like it |
| Audit.TwoEach | tools/qualification_worker.py:114-117 | the pigeonhole: groups of at most two that hold 2n rows hold two each |
| Audit.PassingIsExact | tools/qualification_worker.py:98-118 | with integers only in the ledger a passing audit shows exactly transfers 1 to n, each with its debit and its credit |
| Audit.AuditIsExact | tools/qualification_worker.py:111-118 | a passing audit shows the prescribed database if and only if every cell of the ledger is stored as an integer |
| Audit.ExactPasses | tools/qualification_worker.py:98-118 | every exact database passes |
| Audit.LedgerBalances | tools/qualification_worker.py:108-118 | in an exact database the ledger adds up to the balances and cancels |
| Audit.NullDeltaPasses | tools/qualification_worker.py:111-113 | a NULL delta passes |
| Audit.NullTransactionPasses | tools/qualification_worker.py:114-116 | two rows without a transaction pass in place of the transfer's own |
| Audit.RealAccountPasses | tools/qualification_worker.py:111-116 | an account stored as a real passes |
| Audit.TextTransactionPasses | tools/qualification_worker.py:111-118 | rows that name transfer 1 by a text pass in place of those of transfer 2 |
| ProcessCluster.OnePlaceEach | tools/check_process_cluster.py:139-156 | each accepted packet is in one place, in the order of acceptance |
| ProcessCluster.AcceptedWasRouted | tools/check_process_cluster.py:151-156 | the i-th accepted packet of a node was emitted and routed to it |
| ProcessCluster.OutcomesAreStable | tools/check_process_cluster.py:157-162 | no two completions of a request reported since the last forgetting differ |
| ProcessCluster.AllDealt | tools/check_process_cluster.py:186-188 | `submit` loses no request and gives out none twice |
| ProcessCluster.DealtInTurn | tools/check_process_cluster.py:186-188 | request i goes to the node whose turn it is, behind the earlier requests of that node |
| ProcessCluster.RoundMeaning | tools/check_process_cluster.py:145-164 | what a round routes and records is that of the three replies in the order of their nodes, stopped workers aside |
| ProcessCluster.Deal | tools/check_process_cluster.py:186-188 | the groups are those of the round-robin rule |
| ProcessCluster.Rejected | tools/check_process_cluster.py:190-192 | no error exactly if every node with requests took them all; a stopped node and a refusal are told apart |
| ProcessCluster.Cluster.constructor | tools/check_process_cluster.py:89-106 | three running workers, nothing queued |
| ProcessCluster.Cluster.Start | tools/check_process_cluster.py:110-112 | a new worker in the node's place |
| ProcessCluster.Cluster.Stop | tools/check_process_cluster.py:114-117 | what was queued for the node is dropped and accounted for |
| ProcessCluster.Cluster.Hand | tools/check_process_cluster.py:135-139 | each worker is given the oldest packets of its queue, at most 128 |
| ProcessCluster.Cluster.Forward | tools/check_process_cluster.py:151-156 | a packet is queued, stopped by the partition or by a stopped target; it fails exactly if its queue holds 4096 |
| ProcessCluster.Cluster.Record | tools/check_process_cluster.py:157-164 | an error exactly if a completion of that request was reported that differs |
| ProcessCluster.Cluster.Receive | tools/check_process_cluster.py:145-164 | one reply: a read error, a packet that overflows its queue and an unstable completion are each an error under an exact condition, in this order; otherwise all packets are routed and all completions recorded |
| ProcessCluster.Cluster.Collect | tools/check_process_cluster.py:145-164 | the replies node by node |
| ProcessCluster.Cluster.Round | tools/check_process_cluster.py:132-171 | what was handed out, routed and reported in one round |
| ProcessCluster.Cluster.Settle | tools/check_process_cluster.py:173-179 | success means a completion of each request later than its latest submit and the last forgetting, and empty queues; it comes at once if that is so already |
| ProcessCluster.Cluster.Await | tools/check_process_cluster.py:183-185 | from now on one more completion of each request is awaited; other requests keep their mark |
| ProcessCluster.Cluster.Submit | tools/check_process_cluster.py:181-192 | requests go round robin, each awaits one more completion, and every node took all it was given |
| ProcessCluster.Cluster.Forget | tools/run_cluster_soak.py:117-121 | completions, counts and awaited marks are dropped; packets, queues and workers stay |
| Framing.PackMeaning | tools/check_process_cluster.py:43-51 | the four bytes of the prefix, the least first |
| Framing.UnpackPack | tools/check_process_cluster.py:43-51 | the length prefix is read back |
| Framing.DecodeFrame | tools/qualification_worker.py:35-44 | a frame decodes to its payload, leaving what follows |
| Framing.DecodedIsFrame | tools/qualification_worker.py:35-38 | only a frame decodes |
| Framing.DecodeMeaning | tools/qualification_worker.py:22-38 | when a stream decodes, is cut short, or carries a bad length, by its bytes |
| Framing.PackUnpack | tools/qualification_worker.py:35-44 | every length prefix is the packing of the length it reads as |
| Framing.Pipe.Read | tools/check_process_cluster.py:58-65 | a read gives a front part of what is there, nothing at the end, or times out |
| Framing.Pipe.Write | tools/check_process_cluster.py:45-49 | a write takes a front part of the data or times out |
| Framing.ReadExact | tools/check_process_cluster.py:56-68 | exactly the requested bytes, however the stream is cut; a closed stream and a timeout are told apart |
| Framing.ReadFrame | tools/qualification_worker.py:22-38 | the result is that of decoding the stream |
| Framing.SendFrame | tools/check_process_cluster.py:38-49 | partial writes put exactly one frame on the stream |
| Framing.ReadFrames | tools/qualification_worker.py:22-45 | reading as many frames as were sent yields their payloads in order and touches nothing behind them |
| GroupCommit.AnsweredOnceEach | tools/sqlite_group_reference.py:43-46 | group sizes add up to the answers, which follow the requests one by one |
| GroupCommit.GroupingIsSerial | tools/sqlite_group_reference.py:30-42 | with valid requests the database is that of serial execution in order, and every answer is a success |
| GroupCommit.GroupMeaning | tools/sqlite_group_reference.py:30-42 | a group succeeds if and only if there are databases from one statement to the next, all of which succeed, and its commit does if it writes; otherwise a writing group leaves no trace |
| GroupCommit.WritesMeaning | tools/sqlite_group_reference.py:43 | the number of requests that write |
| GroupCommit.GroupAnswers | tools/sqlite_group_reference.py:43-46 | where the answers of each group stand among all answers, all alike |
| GroupCommit.FailureIsShared | tools/sqlite_group_reference.py:39-46 | one failure told in a writing group means that all of the group were told of it and that it left no trace |
| GroupCommit.GroupReference.AnswerMeaning | tools/sqlite_group_reference.py:39-46 | a request was told of a success exactly if its group succeeded on what the groups before it left |
| GroupCommit.GroupReference.FailedGroup | tools/sqlite_group_reference.py:39-46 | one failure told in a writing group means the same for all of it, after any number of turns |
| GroupCommit.GroupReference.constructor | tools/sqlite_group_reference.py:11-17 | an empty queue and nothing answered |
| GroupCommit.GroupReference.Put | tools/sqlite_group_reference.py:61-63 | a request goes behind the others |
| GroupCommit.GroupReference.Arrive | tools/sqlite_group_reference.py:14 | producers put what fits into the bounded queue |
| GroupCommit.GroupReference.Collect | tools/sqlite_group_reference.py:24-29 | a group is a front part of the queue, never larger than the maximum, with producers putting all the while |
| GroupCommit.GroupReference.Execute | tools/sqlite_group_reference.py:30-42 | one transaction around the group if it writes: success exactly if every statement and the commit succeed, with the database that they make; a failed writing group leaves the database as it was |
| GroupCommit.GroupReference.Finish | tools/sqlite_group_reference.py:30-46 | a group is run, counted and only then answered, with success under that same condition |
| GroupCommit.GroupReference.ServeOnce | tools/sqlite_group_reference.py:19-46 | one turn: the group is run, counted, then answered; every request put is answered or waiting, in order |
| GroupCommit.GroupReference.Turn | tools/sqlite_group_reference.py:19-46 | a turn with the sentinel behind the outstanding requests: a full group, a clean end, or a group that holds the sentinel |
| GroupCommit.GroupReference.Close | tools/sqlite_group_reference.py:51-54 | the worker ends cleanly exactly if full groups use up what was outstanding |
| GroupCommit.StrandedRequest | tools/sqlite_group_reference.py:51-54 | one outstanding request in groups of sixteen is never answered |
| GroupCommit.LeftoverIsRemainder | tools/sqlite_group_reference.py:25-29 | what is left after full groups is the remainder |
| CapacityLoad.CopyKeepsPattern | tools/check_capacity.py:242-248 | copying the first rows keeps the payload pattern exactly because the row count is a multiple of 256 |
| CapacityLoad.PlainInsert | tools/check_capacity.py:246-247 | INSERT without IGNORE succeeds exactly when nothing is there yet |
| CapacityLoad.ChunkKeepsMultiple | tools/check_capacity.py:242 | every chunk keeps the row count a multiple of 256 |
| CapacityLoad.Seed | tools/check_capacity.py:232-236 | the first 256 rows hold the payloads |
| CapacityLoad.CopyExtends | tools/check_capacity.py:246-247 | a copy to the end of the counted rows extends the table correctly even if it already reaches further |
| CapacityLoad.Load | tools/check_capacity.py:237-253 | a stage ends with exactly the rows below the target, each with its payload |
| CapacityLoad.LateInsert | tools/check_capacity.py:243-247 | an old insert that lands late does nothing or completes its own chunk |
| CapacityLoad.Resume | tools/check_capacity.py:224-253 | a resumed load crossed by one old insert, at any step or never: how far the table reaches in the end, exactly |
| CapacityLoad.CountsProveKeys | tools/check_capacity.py:124-133 | least key, greatest key and count prove the key set |
| CapacityLoad.Verify | tools/check_capacity.py:120-133 | the range counts accept exactly ids 0 to rows-1 |
| CapacityLoad.ResumedVerifies | tools/check_capacity.py:120-133 | a resumed load verifies if and only if the old insert never lands, ends within the rows counted, or is a plain INSERT that finds its first key taken |
| CapacityLoad.InterruptedFixture | tools/check_capacity.py:224-253 | an interrupted load resumed with a smaller target fails its verification |
| WorkloadSplit.PieceMeaning | tools/calibrate_native_mixed.py:90-95 | where a piece starts and ends: equal cuts rounded down, and one key where two fall together |
| WorkloadSplit.Split | tools/calibrate_native_mixed.py:89-96 | the loop computes the pieces |
| WorkloadSplit.CoversTheBlock | tools/calibrate_native_mixed.py:90-96 | the statements cover the block, all of it and nothing else |
| WorkloadSplit.UpdatesPerWrite | tools/calibrate_native_mixed.py:89-97 | a write makes max(rows, statements) row updates counted with repetition |
| WorkloadSplit.AddedPerWrite | tools/calibrate_native_mixed.py:82-97 | the table gains that amount if and only if the block lies within it |
| WorkloadSplit.TotalIsExactWhenRowsDivide | tools/calibrate_native_mixed.py:82-83 | true for every draw if and only if the block size divides 1024 |
| WorkloadSplit.ExpectedTotal | tools/calibrate_native_mixed.py:303 | then the final sum is max(rows, statements) times the number of writes, for every run |

## Assumptions

- Nodes of one version admit alike: a request is turned down for what it contains
  (`service/requests.odin:39-63`, `service/requests.odin:97-123`, `src/mutation.odin:217-246`) and by
  a service that does not know its operation. Only the results that name agreement use this.
- Fresh reads are linearizable: a begin sees the log as it is (`specs/transaction-order.typ:11-33`).
  A preview may be answered by any replica at any position it has applied.
- One owner advances a session (`languages/python/README.md:87`).
- An answer belongs to the request it answers. The client compares the sequence only
  (`languages/python/src/sqlodin/client.py:266`); that no late reply to an earlier attempt or write
  comes in its place rests on the transport being closed after every attempt that failed
  (`languages/python/src/sqlodin/client.py:253`).
- Evaluation is deterministic in the data and the body; SHA-256 digests stand for the content they
  are taken of; storage errors and halts of the engine are not modelled.
- Letters are alphanumeric and the marks of SQL are not (`KindScanner.Sane`).

## Left out

- Consensus, journals, snapshots, generations and the SQL engine: the log is the agreed log.
- Timeouts, sleeping, deadlines, TLS and sockets: losses, delays and cuts are arbitrary inputs.
- The size limits of statements, parameters and vectors, and the format of the session name: they
  are inside the abstract `compose` and `bind` of a dialect; only the ranges of sequence and read
  version are modelled.
- Malformed service replies beyond the checks of the client, such as missing columns of a result.
- Cursor descriptions and fetching, and parameters given as a mapping.
- The instruction budget of previews and the affected-row count of a preview compared with that of
  its commit.
- Epochs and revisions beyond 2^63-1: the engine refuses them.
- Buffered transactions and search indexes of the native client.
- The loop of fenced reads, `verify`'s SQL and process statistics of the process controller; packets
  name nodes one to three.
- Failing ROLLBACKs in the group worker, and the 60-second watchdogs.
- How SQLite reads a text as a number (a parameter of the audited tables), infinite reals in them, and
  the digests the audit reports.
- The random sample of payloads that the capacity verification reads.
- DbApi.Connection.Close: the local state only; that the abandoned transaction never commits unless its write was already sent follows from the protocol.
- GroupCommit.GroupReference.ServeOnce: reads of a group are run as the engine runs them; that a statement marked as a read changes nothing is not assumed and not needed.
