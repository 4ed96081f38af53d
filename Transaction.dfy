/**
 * The state every MVCC transaction keeps: its immutable id, database and
 * start time, its status, the slot for its one ongoing sub-transaction, the
 * ids of its committed sub-transactions, its per-collection statistics and
 * the cooperative-cancellation flag.
 */
module MvccTransaction {
  import opened Wrappers
  import opened TransactionTypes
  import opened TransactionStats

  /**
   * What a parent learns of the sub-transactions of a finished sub-transaction:
   * the records of a committed one as they stand, and for a rolled-back one
   * that every sub-transaction inside it is rolled back too.
   */
  ghost function FinishedRecords(sub: Transaction): (r: map<nat, StatusType>)
    reads sub
    ensures r.Keys == sub.subStatus.Keys || r.Keys == sub.subTransactions
  {
    if sub.status == Committed then sub.subStatus
    else map k | k in sub.subTransactions :: RolledBack
  }

  /** The id a revision carries as its deleting transaction while it is not deleted. */
  const NotDeleted := TransactionId(0)

  class Transaction {
    const id: TransactionId
    const vocbase: DatabaseId
    const startTime: Time

    var status: StatusType
    /** The currently ongoing sub-transaction, if any. */
    var ongoingSubTransaction: Transaction?
    /** The own ids of all sub-transactions that committed. */
    var committedSubTransactions: set<nat>
    var stats: StatsMap
    /** Optional expiration time stamp; 0 means not set. */
    var expireTime: Time
    /** Set by another thread to ask the transaction to stop. */
    var killed: bool

    /**
     * The own ids of the sub-transactions this one knows of: every direct one
     * it began, and every deeper one whose enclosing sub-transaction has finished.
     */
    ghost var subTransactions: set<nat>
    /**
     * The status each of those sub-transactions had when this transaction last
     * heard of it: ONGOING when it began, its final status when it finished;
     * a deeper one inside a rolled-back sub-transaction counts as rolled back.
     */
    ghost var subStatus: map<nat, StatusType>

    ghost predicate Valid()
      reads this
    {
      && committedSubTransactions <= subTransactions
      && id.own !in subTransactions
      && subStatus.Keys == subTransactions
      && (forall k | k in subStatus :: subStatus[k] == Committed <==> k in committedSubTransactions)
      && (forall k | k in subStatus ::
            subStatus[k] == Ongoing <==> ongoingSubTransaction != null && ongoingSubTransaction.id.own == k)
      && (ongoingSubTransaction != null ==>
            && ongoingSubTransaction.id.own in subStatus
            && subStatus[ongoingSubTransaction.id.own] == Ongoing
            && ongoingSubTransaction.id.own !in committedSubTransactions)
    }

    /** Created by the transaction manager with a fresh id; starts ongoing and unkilled. */
    constructor (id: TransactionId, vocbase: DatabaseId, startTime: Time)
      ensures Valid()
      ensures this.id == id && this.vocbase == vocbase && this.startTime == startTime
      ensures status == Ongoing && ongoingSubTransaction == null
      ensures committedSubTransactions == {} && stats == map[]
      ensures expireTime == 0 && !killed
      ensures subTransactions == {} && subStatus == map[]
    {
      this.id := id;
      this.vocbase := vocbase;
      this.startTime := startTime;
      status := Ongoing;
      ongoingSubTransaction := null;
      committedSubTransactions := {};
      stats := map[];
      expireTime := 0;
      killed := false;
      subTransactions := {};
      subStatus := map[];
    }

    /** The transaction's own id, the numeric part of its id. */
    function Own(): (r: nat)
      ensures r == id.own && r == InfoFromId(id, startTime).own
    {
      id.own
    }

    /** The status checks compare the status' underlying enum values. */
    predicate IsOngoing()
      reads this
      ensures IsOngoing() <==> StatusCode(status) == 1
    {
      IsOngoingStatus(status)
    }

    predicate IsCommitted()
      reads this
      ensures IsCommitted() <==> StatusCode(status) == 2
    {
      IsCommittedStatus(status)
    }

    predicate IsRolledBack()
      reads this
      ensures IsRolledBack() <==> StatusCode(status) == 3
    {
      IsRolledBackStatus(status)
    }

    /** Whatever the status, exactly one of the three status checks holds. */
    lemma StatusChecksExclusive()
      ensures IsOngoing() || IsCommitted() || IsRolledBack()
      ensures !(IsOngoing() && IsCommitted())
      ensures !(IsOngoing() && IsRolledBack())
      ensures !(IsCommitted() && IsRolledBack())
    {
      ExactlyOneStatus(status);
    }

    /** The slot is occupied exactly when some sub-transaction is recorded as ongoing. */
    predicate HasOngoingSubTransaction()
      reads this
      ensures Valid() ==> (HasOngoingSubTransaction() <==> exists k | k in subStatus :: subStatus[k] == Ongoing)
    {
      ongoingSubTransaction != null
    }

    /** Whether a successful insert or remove was counted in any collection. */
    predicate HasTransactionModifications()
      reads this
      ensures HasTransactionModifications() <==>
        exists c | c in stats :: stats[c].numInsertedSuccessful + stats[c].numRemovedSuccessful > 0
    {
      HasModifications(stats)
    }

    /** The killed flag; with the frames of the methods, true for good once set. */
    function Killed(): (r: bool)
      reads this
      ensures r <==> killed
    {
      killed
    }

    /** Set the killed flag. The argument is ignored: the flag always becomes true. */
    method SetKilled(value: bool)
      modifies this`killed
      ensures Killed()
    {
      killed := true;
    }

    /** Give collection `c` a statistics entry so that later increments cannot fail. */
    method PrepareCollectionStats(c: CollectionId)
      modifies this`stats
      ensures stats == PrepareStats(old(stats), c)
      ensures c in stats
    {
      stats := PrepareStats(stats, c);
    }

    /** Count an insert into `c`; `c` must have been prepared. */
    method IncNumInsertedFor(c: CollectionId, successful: bool)
      requires c in stats
      modifies this`stats
      ensures stats == IncNumInserted(old(stats), c, successful)
      ensures HasTransactionModifications() <==> old(HasTransactionModifications()) || successful
    {
      stats := IncNumInserted(stats, c, successful);
    }

    /** Count a remove from `c`; `c` must have been prepared. */
    method IncNumRemovedFor(c: CollectionId, successful: bool)
      requires c in stats
      modifies this`stats
      ensures stats == IncNumRemoved(old(stats), c, successful)
      ensures HasTransactionModifications() <==> old(HasTransactionModifications()) || successful
    {
      stats := IncNumRemoved(stats, c, successful);
    }

    /**
     * Start `sub` as this transaction's ongoing sub-transaction: refused while
     * another one is still ongoing.
     */
    method BeginSubTransaction(sub: Transaction) returns (r: Outcome<Error>)
      requires Valid()
      requires sub.id.own != id.own && sub.id.own !in subTransactions
      modifies this`ongoingSubTransaction, this`subTransactions, this`subStatus
      ensures Valid()
      ensures r.Fail? <==> old(HasOngoingSubTransaction())
      ensures r.Fail? ==> (r.error == AlreadyHasOngoingSubTransaction
        && ongoingSubTransaction == old(ongoingSubTransaction) && subTransactions == old(subTransactions)
        && subStatus == old(subStatus))
      ensures r.Pass? ==> (ongoingSubTransaction == sub && subTransactions == old(subTransactions) + {sub.id.own}
        && subStatus == old(subStatus)[sub.id.own := Ongoing])
    {
      if ongoingSubTransaction != null {
        return Fail(AlreadyHasOngoingSubTransaction);
      }
      ongoingSubTransaction := sub;
      subTransactions := subTransactions + {sub.id.own};
      subStatus := subStatus[sub.id.own := Ongoing];
      r := Pass;
    }

    /**
     * The ongoing sub-transaction `sub` has finished. A committed one is
     * recorded together with the sub-transactions it committed, and its
     * statistics are merged in; a rolled-back one adds no commit and no
     * statistics. Either way the slot is cleared and this transaction takes
     * over what `sub` knew of its own sub-transactions.
     */
    method SubTransactionFinished(sub: Transaction)
      requires Valid() && sub.Valid()
      requires sub == ongoingSubTransaction && !sub.IsOngoing()
      requires sub.IsCommitted() ==> !sub.HasOngoingSubTransaction()
      requires sub.subTransactions !! subTransactions && id.own !in sub.subTransactions
      modifies this`ongoingSubTransaction, this`committedSubTransactions, this`stats
      modifies this`subTransactions, this`subStatus
      ensures Valid()
      ensures ongoingSubTransaction == null
      ensures subTransactions == old(subTransactions) + sub.subTransactions
      ensures subStatus == (old(subStatus) + FinishedRecords(sub))[sub.id.own := sub.status]
      ensures sub.IsCommitted() ==>
        (committedSubTransactions == old(committedSubTransactions) + {sub.id.own} + sub.committedSubTransactions
         && stats == MergeStats(old(stats), sub.stats))
      ensures sub.IsRolledBack() ==>
        (committedSubTransactions == old(committedSubTransactions) && stats == old(stats))
    {
      if sub.IsCommitted() {
        committedSubTransactions := committedSubTransactions + {sub.id.own} + sub.committedSubTransactions;
        stats := MergeStats(stats, sub.stats);
      }
      subTransactions := subTransactions + sub.subTransactions;
      subStatus := (subStatus + FinishedRecords(sub))[sub.id.own := sub.status];
      ongoingSubTransaction := null;
    }

    /**
     * The status of sub-transaction `sub`: only asked of an ongoing
     * transaction about one of its sub-transactions, direct or deeper.
     */
    function StatusSubTransaction(sub: TransactionId): (r: StatusType)
      reads this
      requires Valid() && IsOngoing() && sub.own in subTransactions
      ensures r == subStatus[sub.own]
    {
      if sub.own in committedSubTransactions then Committed
      else if ongoingSubTransaction != null && ongoingSubTransaction.id == sub then Ongoing
      else RolledBack
    }

    /** Commit an ongoing transaction; refused while a sub-transaction is still ongoing. */
    method Commit() returns (r: Outcome<Error>)
      requires IsOngoing()
      modifies this`status
      ensures r.Fail? <==> HasOngoingSubTransaction()
      ensures r.Fail? ==> r.error == ChildStillOngoing && status == old(status)
      ensures r.Pass? ==> IsCommitted()
    {
      if ongoingSubTransaction != null {
        return Fail(ChildStillOngoing);
      }
      status := Committed;
      r := Pass;
    }

    /** Roll back an ongoing transaction; this never fails. */
    method Rollback()
      requires IsOngoing()
      modifies this`status
      ensures IsRolledBack()
    {
      status := RolledBack;
    }
  }

  /**
   * Whether a revision created by `from` and deleted by `to` (NotDeleted while
   * it is not deleted) is visible to a reader whose visibility of other
   * transactions is `visibility`.
   */
  function IsVisibleForRead(visibility: TransactionId -> VisibilityType, from: TransactionId, to: TransactionId): (r: bool)
    // in the order INVISIBLE < CONCURRENT < VISIBLE: the creator is at the top,
    // and the deleter is absent or below the top
    ensures r <==>
      !VisibilityLess(visibility(from), Visible) && (to == NotDeleted || VisibilityLess(visibility(to), Visible))
  {
    BelowVisibleMeansNotVisible(visibility(from));
    BelowVisibleMeansNotVisible(visibility(to));
    visibility(from) == Visible && (to == NotDeleted || visibility(to) != Visible)
  }

  /** A revision whose creator is INVISIBLE or CONCURRENT (e.g. rolled back) is never read. */
  lemma InvisibleCreatorNeverRead(visibility: TransactionId -> VisibilityType, from: TransactionId, to: TransactionId)
    requires VisibilityLess(visibility(from), Visible)
    ensures !IsVisibleForRead(visibility, from, to)
  {
    BelowVisibleMeansNotVisible(visibility(from));
  }

  /**
   * Ends an ongoing transaction: commits it when asked to and allowed to,
   * and rolls it back otherwise.
   */
  method EndSubTransaction(sub: Transaction, commit: bool)
    requires sub.IsOngoing()
    modifies sub`status
    ensures !sub.IsOngoing()
    ensures sub.IsCommitted() <==> commit && !sub.HasOngoingSubTransaction()
  {
    if commit {
      var c := sub.Commit();
      if c.Fail? {
        sub.Rollback();
      }
    } else {
      sub.Rollback();
    }
  }

  /**
   * A parent refuses a second sub-transaction while the first is ongoing and
   * accepts a new one once the first has finished.
   */
  method NestingScenario(parent: Transaction, first: Transaction, second: Transaction, commitFirst: bool)
    requires parent.Valid() && first.IsOngoing() && !parent.HasOngoingSubTransaction()
    requires first != parent && second != parent && first != second
    requires first.id.own != parent.id.own && second.id.own != parent.id.own && first.id.own != second.id.own
    requires first.id.own !in parent.subTransactions && second.id.own !in parent.subTransactions
    requires first.Valid() && first.subTransactions !! parent.subTransactions
    requires parent.id.own !in first.subTransactions && second.id.own !in first.subTransactions
    modifies parent`ongoingSubTransaction, parent`subTransactions, parent`subStatus
    modifies parent`committedSubTransactions, parent`stats, first`status
    ensures parent.Valid() && parent.ongoingSubTransaction == second
    ensures parent.subTransactions == old(parent.subTransactions) + {first.id.own, second.id.own} + first.subTransactions
    ensures commitFirst && !old(first.HasOngoingSubTransaction()) <==> first.id.own in parent.committedSubTransactions
    ensures !first.IsOngoing()
    ensures parent.IsOngoing() ==>
      parent.StatusSubTransaction(first.id) == first.status && parent.StatusSubTransaction(second.id) == Ongoing
  {
    var r1 := parent.BeginSubTransaction(first);
    assert r1.Pass?;
    var r2 := parent.BeginSubTransaction(second);
    assert r2 == Fail(AlreadyHasOngoingSubTransaction);
    EndSubTransaction(first, commitFirst);
    parent.SubTransactionFinished(first);
    assert parent.subStatus[first.id.own] == first.status;
    assert first.id.own in parent.committedSubTransactions <==> first.IsCommitted();
    var r3 := parent.BeginSubTransaction(second);
    assert r3.Pass?;
  }

  /**
   * The nesting protocol from freshly built transactions: after the first
   * sub-transaction has committed or rolled back and the second has begun,
   * the parent reports the first one's final status.
   */
  method FreshNestingScenario(commitFirst: bool) returns (reported: StatusType)
    ensures reported == if commitFirst then Committed else RolledBack
  {
    var parent := new Transaction(TransactionId(1), 0, 0);
    var first := new Transaction(TransactionId(2), 0, 0);
    var second := new Transaction(TransactionId(3), 0, 0);
    NestingScenario(parent, first, second, commitFirst);
    assert first.id.own in parent.committedSubTransactions <==> commitFirst;
    reported := parent.StatusSubTransaction(first.id);
  }

  /**
   * A sub-transaction nested two levels deep: the parent begins a child, the
   * child begins a grandchild, the grandchild commits and the child then
   * commits or rolls back. The parent reports the grandchild as committed
   * exactly when the child committed.
   */
  method DeepNestingScenario(commitChild: bool) returns (reported: StatusType)
    ensures reported == if commitChild then Committed else RolledBack
  {
    var parent := new Transaction(TransactionId(1), 0, 0);
    var child := new Transaction(TransactionId(2), 0, 0);
    var grandchild := new Transaction(TransactionId(3), 0, 0);
    var r1 := parent.BeginSubTransaction(child);
    var r2 := child.BeginSubTransaction(grandchild);
    var r3 := grandchild.Commit();
    assert r3.Pass?;
    child.SubTransactionFinished(grandchild);
    if commitChild {
      var r4 := child.Commit();
      assert r4.Pass?;
    } else {
      child.Rollback();
    }
    parent.SubTransactionFinished(child);
    reported := parent.StatusSubTransaction(grandchild.id);
  }
}
