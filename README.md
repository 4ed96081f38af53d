# MVCC transaction bookkeeping and the collection read-lock guard

This project models two pieces of the MVCC transaction engine of ArangoDB.

- The state every `Transaction` keeps (`arangod/Mvcc/Transaction.h`):
  - the status ONGOING / COMMITTED / ROLLED_BACK and its three checks;
  - the visibility values INVISIBLE < CONCURRENT < VISIBLE;
  - the slot for the one ongoing sub-transaction;
  - the set of committed sub-transaction ids;
  - the per-collection statistics map, with its prepare-then-increment protocol;
  - the sticky `killed` flag;
  - the `TransactionInfo` value record.
- The scoped read-lock guard `CollectionReadLock` (`arangod/Mvcc/CollectionReadLock.cpp`).
  It takes a read lock on a transaction's collection binding only when the binding is not locked yet.
  It releases the lock only if it took it.

Modules:

- `Wrappers`: `Option` and `Outcome`.
- `TransactionTypes`: the status and visibility enumerations with their `uint16_t` codes, `TransactionId`, `TransactionInfo`, the error kinds.
- `TransactionStats`: `CollectionStats` and the pure operations on a transaction's statistics map.
  `Replay` applies a sequence of statistics calls.
  The lemmas about `Replay` state the prepare-before-increment guarantee, counter monotonicity and "only successful operations are modifications" for every sequence of calls.
- `MvccTransaction`: the class `Transaction`, whose methods are proved against the `TransactionStats` functions, and `IsVisibleForRead`.
- `CollectionLocking`: the binding's lock (`TransactionCollection`), the guard's enter/exit transitions as functions, nesting to any depth (`Nested`), and the classes `TransactionCollection` and `CollectionReadLock`.

Notes on the model:

- `id`, `vocbase` and `startTime` are `const` fields of `Transaction`, so no method can change them.
  `Own()` is `id.own`.
- `killed(bool)` is `SetKilled`. It sets the flag to true whatever its argument.
  No other method of `Transaction` has the `killed` field in its `modifies` frame, so once set the flag stays true.
  `SetKilled` changes nothing else, because its frame is only `this`killed`.
- Time stamps (`double` in the source) are natural numbers. Nothing does arithmetic on them.
- Whether a blocking `lockRead` succeeds within its timeout is decided outside the model, by the parameter `granted`.
  The guard ignores the result, as the source does: `hasLocked` becomes true either way.
  So the guarantee "nested guards make exactly one lockRead/unlock pair" holds when the outer acquisition is granted (`NestedGrantedSinglePair`).
  When it times out, an inner guard sees an unlocked binding and tries again.
  Each guard then unlocks once (`DeniedOuterLetsInnerRetry`).
  This case assumes that `lockRead` reports a timeout by returning (see "## Left out").
  In every case the lock mode afterwards is the mode before (`NestedRestoresMode`).
- The bodies of `prepareStats`, `incNumInserted`, `incNumRemoved`, `hasModifications`, `subTransactionFinished`, `statusSubTransaction`, `commit`, `rollback` and `isVisibleForRead` are not part of the header.
  The model assumes this behaviour for them:
  - Prepared entries start at zero, and an existing entry is kept.
  - Increments count every attempt, and count the successful ones separately.
  - The unnamed `bool` of `incNumInserted`/`incNumRemoved` is read as "the operation succeeded".
  - A committed sub-transaction's id, the ids it committed and its statistics are added into the parent's; a rolled-back one adds no committed id and no statistics.
  - A finished sub-transaction hands its own sub-transactions over to the parent: those of a committed one keep the status it recorded, those of a rolled-back one count as ROLLED_BACK.
  - A revision is readable when its creator is VISIBLE and its deleter is absent or not VISIBLE.
- Assumptions of the model, not visible in the source:
  - A new transaction is ONGOING and not killed, with no sub-transactions, no statistics and expiry time 0.
  - `Commit` and `Rollback` require an ONGOING transaction.
  - `Commit` refuses, with `ChildStillOngoing`, while a sub-transaction occupies the ongoing slot.
  - `SubTransactionFinished` requires that the finished transaction is the one in the ongoing slot, that it has no ongoing sub-transaction of its own if it committed, and that transaction ids are distinct across all levels of nesting.
  - Increments require a prepared entry.
  - The id 0 stands for "not deleted".
  - `BeginSubTransaction` writes the ongoing slot. In the source the transaction manager, a friend class, does this.
  - `statusSubTransaction` answers from a ghost record `subStatus`. The record holds, for every direct sub-transaction, the status the transaction last heard of: ONGOING when the sub-transaction began, and its own final status when it reported its finish through `SubTransactionFinished`. It also holds the deeper sub-transactions handed over by a finished direct sub-transaction.

## Model

| member | source | states |
|---|---|---|
| `TransactionTypes.StatusCode` | arangod/Mvcc/Transaction.h:100-104 | every status is encoded by one of the values 1, 2, 3 |
| `TransactionTypes.StatusCodeInjective` | arangod/Mvcc/Transaction.h:100-104 | two statuses have the same code exactly when they are the same status |
| `TransactionTypes.ExactlyOneStatus` | arangod/Mvcc/Transaction.h:197-219 | every status satisfies at least one and at most one of the ongoing, committed and rolled-back checks |
| `TransactionTypes.VisibilityCode` | arangod/Mvcc/Transaction.h:110-114 | every visibility is encoded by one of the values 1, 2, 3 |
| `TransactionTypes.VisibilityStrictTotalOrder` | arangod/Mvcc/Transaction.h:347-355 | INVISIBLE < CONCURRENT < VISIBLE; the order on visibility values is irreflexive, asymmetric, transitive and total |
| `TransactionTypes.BelowVisibleMeansNotVisible` | arangod/Mvcc/Transaction.h:347-355 | `v < VISIBLE` holds exactly when `v` is not VISIBLE, and nothing is below INVISIBLE |
| `TransactionTypes.InfoFromId` | arangod/Mvcc/Transaction.h:53-57 | construction from a transaction id takes the id's own part and the given start time |
| `TransactionTypes.CopyInfo` | arangod/Mvcc/Transaction.h:65-68 | a copy has exactly the original's own id and start time |
| `TransactionTypes.AssignInfo` | arangod/Mvcc/Transaction.h:70-74 | after assignment the target equals the source in both fields |
| `TransactionTypes.InfoConstructorsAgree` | arangod/Mvcc/Transaction.h:52-68 | constructing from an id equals constructing from that id's own part, and copying keeps the own part |
| `TransactionStats.PrepareStats` | arangod/Mvcc/Transaction.h:242-247 | afterwards the collection has an entry; a new entry starts at zero; existing entries, the other keys and `hasModifications` are unchanged |
| `TransactionStats.IncNumInserted` | arangod/Mvcc/Transaction.h:249-255 | on a prepared collection: the attempted insert count grows by one, the successful count grows by one if the insert succeeded and stays the same otherwise, nothing else changes, and the result has modifications exactly when the input had some or the insert succeeded |
| `TransactionStats.IncNumRemoved` | arangod/Mvcc/Transaction.h:257-263 | the same as for inserts, for the remove counters |
| `TransactionStats.MergeStats` | arangod/Mvcc/Transaction.h:413-417 | merging a committed sub-transaction's statistics adds the counters per collection over the union of keys; no counter decreases; the merge has modifications exactly when either side had some |
| `TransactionStats.MergeKeepsConsistent` | arangod/Mvcc/Transaction.h:467-471 | merging keeps every successful count at or below the attempted count |
| `TransactionStats.MergeAddsCounts` | arangod/Mvcc/Transaction.h:413-417 | a parent count of 5 and a child count of 3 for one collection give 8 after the merge |
| `TransactionStats.ReplaySucceedsIffPrepared` | arangod/Mvcc/Transaction.h:242-263 | a sequence of statistics calls never hits a missing entry exactly when every increment's collection was prepared before it |
| `TransactionStats.IncrementsAfterPrepareSucceed` | arangod/Mvcc/Transaction.h:242-263 | after `prepareStats(c)`, any number of increments for `c` succeed |
| `TransactionStats.ReplayNeverDecreases` | arangod/Mvcc/Transaction.h:467-471 | along any sequence of calls no entry disappears and no counter decreases |
| `TransactionStats.ReplayKeepsConsistent` | arangod/Mvcc/Transaction.h:249-263 | along any sequence of calls successful counts stay at or below attempted counts |
| `TransactionStats.ReplayModificationsOnlyFromSuccess` | arangod/Mvcc/Transaction.h:229-234 | after any sequence of calls there are modifications exactly when there were some before or one of the calls was a successful insert or remove; failed operations never count |
| `MvccTransaction.Transaction.constructor` | arangod/Mvcc/Transaction.h:127-135 | a new transaction keeps the given id, database and start time, is ONGOING, has no sub-transaction (none ongoing, none begun, none committed), no statistics, no expiry and is not killed |
| `MvccTransaction.Transaction.Own` | arangod/Mvcc/Transaction.h:169-171 | `own()` is the own part of the transaction's id, the same value a `TransactionInfo` built from that id holds |
| `MvccTransaction.Transaction.IsOngoing` | arangod/Mvcc/Transaction.h:201-203 | true exactly when the status' enum value is 1 (ONGOING) |
| `MvccTransaction.Transaction.IsCommitted` | arangod/Mvcc/Transaction.h:209-211 | true exactly when the status' enum value is 2 (COMMITTED) |
| `MvccTransaction.Transaction.IsRolledBack` | arangod/Mvcc/Transaction.h:217-219 | true exactly when the status' enum value is 3 (ROLLED_BACK) |
| `MvccTransaction.Transaction.HasOngoingSubTransaction` | arangod/Mvcc/Transaction.h:225-227 | the slot is non-null exactly when some sub-transaction begun under this one is recorded as ongoing |
| `MvccTransaction.Transaction.HasTransactionModifications` | arangod/Mvcc/Transaction.h:229-234 | true exactly when some collection counted a positive number of successful inserts and removes; failed operations are not counted |
| `MvccTransaction.Transaction.Killed` | arangod/Mvcc/Transaction.h:403-405 | returns the killed flag, which no method except `SetKilled` may change |
| `MvccTransaction.Transaction.StatusChecksExclusive` | arangod/Mvcc/Transaction.h:201-219 | for the transaction's status exactly one of `isOngoing`, `isCommitted`, `isRolledBack` holds |
| `MvccTransaction.Transaction.SetKilled` | arangod/Mvcc/Transaction.h:395-397 | whatever the argument, `killed()` is true afterwards; only the flag may change |
| `MvccTransaction.Transaction.PrepareCollectionStats` | arangod/Mvcc/Transaction.h:242-247 | the statistics map becomes `PrepareStats` of the old one, so the collection has an entry |
| `MvccTransaction.Transaction.IncNumInsertedFor` | arangod/Mvcc/Transaction.h:249-255 | on a prepared collection the map becomes `IncNumInserted` of the old one; `hasModifications` becomes true exactly when it was or the insert succeeded |
| `MvccTransaction.Transaction.IncNumRemovedFor` | arangod/Mvcc/Transaction.h:257-263 | the same for removes |
| `MvccTransaction.Transaction.BeginSubTransaction` | arangod/Mvcc/Transaction.h:221-227 | starting a sub-transaction fails with AlreadyHasOngoingSubTransaction exactly when the slot is occupied, changing nothing; otherwise the slot holds the new sub-transaction, which is recorded as ONGOING |
| `MvccTransaction.Transaction.SubTransactionFinished` | arangod/Mvcc/Transaction.h:413-417 | the slot is cleared and the sub-transaction's final status is recorded; its own sub-transactions are taken over, with their recorded statuses if it committed and as ROLLED_BACK if it rolled back; a committed sub-transaction's id and committed ids are added and its statistics merged; a rolled-back one changes neither |
| `MvccTransaction.Transaction.StatusSubTransaction` | arangod/Mvcc/Transaction.h:365-371 | asked of an ongoing transaction about a direct or deeper sub-transaction it knows of: the status recorded for it, which is ONGOING while it occupies the slot, its own final status once it has reported finishing, and for a deeper one the status its enclosing sub-transaction passed on |
| `MvccTransaction.Transaction.Commit` | arangod/Mvcc/Transaction.h:273-277 | fails with ChildStillOngoing exactly when a sub-transaction is ongoing, leaving the status; otherwise the transaction is COMMITTED |
| `MvccTransaction.Transaction.Rollback` | arangod/Mvcc/Transaction.h:279-283 | never fails; the transaction is ROLLED_BACK |
| `MvccTransaction.IsVisibleForRead` | arangod/Mvcc/Transaction.h:357-363 | a revision is readable exactly when its creator is not below VISIBLE and its deleter is absent or below VISIBLE in the order INVISIBLE < CONCURRENT < VISIBLE |
| `MvccTransaction.InvisibleCreatorNeverRead` | arangod/Mvcc/Transaction.h:357-363 | a revision whose creator is INVISIBLE or CONCURRENT is never readable |
| `MvccTransaction.NestingScenario` | arangod/Mvcc/Transaction.h:221-227 | a second sub-transaction is refused while the first is ongoing and accepted after the first has finished; the first's id is recorded exactly when it committed; an ongoing parent reports the first's own final status and the second as ONGOING |
| `MvccTransaction.EndSubTransaction` | arangod/Mvcc/Transaction.h:273-283 | an ongoing transaction is ended; it is committed exactly when a commit was asked for and no sub-transaction of its own is ongoing, and rolled back otherwise |
| `MvccTransaction.FreshNestingScenario` | arangod/Mvcc/Transaction.h:365-371 | starting from freshly constructed transactions, after the nesting protocol the parent reports COMMITTED for a committed first sub-transaction and ROLLED_BACK for a rolled-back one |
| `MvccTransaction.DeepNestingScenario` | arangod/Mvcc/Transaction.h:365-371 | a sub-transaction two levels down that committed is reported by the outermost transaction as COMMITTED when its enclosing sub-transaction committed and as ROLLED_BACK when that one rolled back |
| `CollectionLocking.LockReadTransition` | arangod/Mvcc/CollectionReadLock.cpp:53 | `lockRead` records one call with its timeout; the read lock is held if granted, the mode is unchanged otherwise |
| `CollectionLocking.UnlockTransition` | arangod/Mvcc/CollectionReadLock.cpp:64 | `unlock` records one call and leaves the binding unlocked |
| `CollectionLocking.GuardEnter` | arangod/Mvcc/CollectionReadLock.cpp:47-56 | the guard takes the lock exactly when the binding is unlocked, making one `lockRead` with a 30-second timeout; over a locked binding it changes nothing and `hasLocked` stays false |
| `CollectionLocking.GuardExit` | arangod/Mvcc/CollectionReadLock.cpp:62-66 | destruction makes one `unlock` exactly when `hasLocked`, and changes nothing otherwise |
| `CollectionLocking.SingleGuard` | arangod/Mvcc/CollectionReadLock.cpp:47-66 | one guard over an unlocked binding makes one lockRead/unlock pair, over a locked binding none; the mode afterwards equals the mode before |
| `CollectionLocking.NestedOverLockedIsNoOp` | arangod/Mvcc/CollectionReadLock.cpp:49-52 | guards of any depth over an already locked binding leave it exactly as it was |
| `CollectionLocking.NestedRestoresMode` | arangod/Mvcc/CollectionReadLock.cpp:47-66 | guards of any depth, whatever their acquisitions report, leave the lock mode as it was before the outermost one |
| `CollectionLocking.NestedGrantedSinglePair` | arangod/Mvcc/CollectionReadLock.cpp:47-66 | when the outermost acquisition is granted, guards of any depth make exactly one lockRead/unlock pair |
| `CollectionLocking.DeniedOuterLetsInnerRetry` | arangod/Mvcc/CollectionReadLock.cpp:53-54 | because the result of `lockRead` is ignored, a timed-out outer guard leads to two lockRead calls and two unlocks, and the mode is still restored |
| `CollectionLocking.TransactionCollection.IsLockedNow` | arangod/Mvcc/CollectionReadLock.cpp:52 | `isLocked()` holds exactly when the binding holds a lock of any mode |
| `CollectionLocking.TransactionCollection.LockRead` | arangod/Mvcc/CollectionReadLock.cpp:53 | the binding's state follows `LockReadTransition`; the result is LockTimeout exactly when not granted |
| `CollectionLocking.TransactionCollection.Unlock` | arangod/Mvcc/CollectionReadLock.cpp:64 | the binding's state follows `UnlockTransition` |
| `CollectionLocking.CollectionReadLock.constructor` | arangod/Mvcc/CollectionReadLock.cpp:47-56 | `hasLocked` is true exactly when the binding was unlocked; the binding's state follows `GuardEnter` |
| `CollectionLocking.CollectionReadLock.Destroy` | arangod/Mvcc/CollectionReadLock.cpp:62-66 | the binding's state follows `GuardExit` for this guard's `hasLocked` |
| `CollectionLocking.NestedReadLocks` | arangod/Mvcc/CollectionReadLock.cpp:47-66 | two nested guard objects leave the mode as it was; with the outer acquisition granted they make exactly one lockRead/unlock pair, and over a locked binding none |

## Left out

- MvccTransaction.Transaction.StatusSubTransaction: a sub-transaction nested inside a sub-transaction that is still ongoing is not known to the outer transaction until its enclosing sub-transaction finishes, so it cannot be asked about before then.

- The transaction manager (`transactionManager()`, registration, id allocation, lookup) is not part of this model. Only its write of the ongoing-sub-transaction slot is modelled, as `BeginSubTransaction`.
- `visibility` is a parameter of `IsVisibleForRead`. Its body is not in the header. The only facts proved about it are those of the visibility order.
- `hasWaitForSync` is left out. Neither its body nor the data it reads is in the header.
- `aggregatedStats`, `collection(name)`, `collection(cid)`, `topLevelTransaction`, `parentTransaction` and `isTopLevel` are left out. They are pure virtual and belong to the top-level and sub-transaction variants, which are not part of this model.
- `toString` and the stream operators are left out. They only produce text output.
- The `TransactionCollection` binding is reduced to its lock mode. Its statistics accumulator and its link to storage are not modelled.
- Blocking, timeouts and concurrent lockers are left out. The outcome of `lockRead` is the parameter `granted`.
- Thread safety of the `killed` flag is left out. Concurrency is not modelled.
- Time stamps are natural numbers rather than `double`.
- `expireTime` is a simplification. The model starts it at 0 and no modelled operation changes it. In the source the field is protected, so the friend classes may write it, and the constructor body is not part of the header.
- `lockRead` is assumed to report a timeout by returning a result. The guard ignores that result. `TransactionCollection.h` is not part of this model. If `lockRead` throws on timeout instead, the guard's constructor stops before setting `hasLocked`, and `DeniedOuterLetsInnerRetry` describes a case that cannot occur.
- `MvccTransaction.Transaction.Commit`: models only the status change and the refusal while a sub-transaction is ongoing. The variant-specific work is not modelled: flushing statistics, releasing locks and notifying the manager or the parent.
- `MvccTransaction.Transaction.Rollback`: models only the status change. The variant-specific clean-up is not modelled.
