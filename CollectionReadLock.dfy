/**
 * The scoped read-lock guard over a transaction's binding to one collection.
 * The guard acquires a read lock only when the binding is not locked yet,
 * remembers whether it did, and on destruction releases the lock only if it
 * was the one that acquired it. The binding itself is modelled as a lock
 * state plus a log of the lock calls made on it.
 */
module CollectionLocking {
  import opened Wrappers
  import opened TransactionTypes
  import MvccTransaction

  /** The timeout the guard passes to `lockRead`: 30 seconds, in microseconds. */
  const ReadLockTimeoutMicros: nat := 30 * 1000 * 1000

  datatype LockMode = Unlocked | ReadLocked | WriteLocked

  /** A call made on a collection binding's lock. */
  datatype LockCall = LockReadCall(timeoutMicros: nat) | UnlockCall

  /** A binding's lock mode together with every lock call made on it so far. */
  datatype LockState = LockState(mode: LockMode, calls: seq<LockCall>)

  predicate IsLocked(s: LockState)
  {
    s.mode != Unlocked
  }

  /**
   * `lockRead`: records the call; the read lock is held afterwards when the
   * acquisition was `granted` within the timeout, otherwise the mode is left as it was.
   */
  function LockReadTransition(s: LockState, timeoutMicros: nat, granted: bool): (r: LockState)
    ensures r.calls == s.calls + [LockReadCall(timeoutMicros)]
    ensures granted ==> r.mode == ReadLocked
    ensures !granted ==> r.mode == s.mode
  {
    LockState(if granted then ReadLocked else s.mode, s.calls + [LockReadCall(timeoutMicros)])
  }

  /** `unlock`: records the call and releases whatever mode is held. */
  function UnlockTransition(s: LockState): (r: LockState)
    ensures r.calls == s.calls + [UnlockCall] && !IsLocked(r)
  {
    LockState(Unlocked, s.calls + [UnlockCall])
  }

  /**
   * Building a guard: whether it took the lock, and the binding's state after.
   * The result of `lockRead` is not inspected.
   */
  function GuardEnter(s: LockState, granted: bool): (r: (bool, LockState))
    ensures r.0 <==> !IsLocked(s)
    ensures r.0 ==> r.1.calls == s.calls + [LockReadCall(ReadLockTimeoutMicros)]
    ensures !r.0 ==> r.1 == s
  {
    if !IsLocked(s) then (true, LockReadTransition(s, ReadLockTimeoutMicros, granted)) else (false, s)
  }

  /** Destroying a guard: unlock only if this guard took the lock. */
  function GuardExit(s: LockState, hasLocked: bool): (r: LockState)
    ensures hasLocked ==> r.calls == s.calls + [UnlockCall] && !IsLocked(r)
    ensures !hasLocked ==> r == s
  {
    if hasLocked then UnlockTransition(s) else s
  }

  /**
   * Guards nested inside each other on the same binding: the first one is
   * built first and destroyed last. `grants[i]` says whether the i-th
   * guard's `lockRead`, if it makes one, is granted.
   */
  function Nested(s: LockState, grants: seq<bool>): LockState
    decreases |grants|
  {
    if grants == [] then s
    else
      var (hasLocked, entered) := GuardEnter(s, grants[0]);
      GuardExit(Nested(entered, grants[1..]), hasLocked)
  }

  /** One guard: a single lockRead/unlock pair over an unlocked binding, no call over a locked one. */
  lemma SingleGuard(s: LockState, granted: bool)
    ensures var (hasLocked, entered) := GuardEnter(s, granted);
      var left := GuardExit(entered, hasLocked);
      && left.mode == s.mode
      && left.calls == s.calls + (if IsLocked(s) then [] else [LockReadCall(ReadLockTimeoutMicros), UnlockCall])
  {
    if !IsLocked(s) {
      assert s.calls + [LockReadCall(ReadLockTimeoutMicros)] + [UnlockCall]
          == s.calls + [LockReadCall(ReadLockTimeoutMicros), UnlockCall];
    }
  }

  /** Guards of any depth over an already locked binding make no lock call at all. */
  lemma {:induction false} NestedOverLockedIsNoOp(s: LockState, grants: seq<bool>)
    requires IsLocked(s)
    ensures Nested(s, grants) == s
    decreases |grants|
  {
    if grants != [] {
      NestedOverLockedIsNoOp(s, grants[1..]);
    }
  }

  /** However deep the nesting and whatever the grants, the mode is restored afterwards. */
  lemma {:induction false} NestedRestoresMode(s: LockState, grants: seq<bool>)
    ensures Nested(s, grants).mode == s.mode
    decreases |grants|
  {
    if grants != [] {
      var (hasLocked, entered) := GuardEnter(s, grants[0]);
      NestedRestoresMode(entered, grants[1..]);
    }
  }

  /**
   * When the outermost guard's acquisition is granted, nested guards of any
   * depth perform exactly one lockRead/unlock pair.
   */
  lemma {:induction false} NestedGrantedSinglePair(s: LockState, grants: seq<bool>)
    requires !IsLocked(s) && |grants| > 0 && grants[0]
    ensures Nested(s, grants).calls == s.calls + [LockReadCall(ReadLockTimeoutMicros), UnlockCall]
    ensures Nested(s, grants).mode == s.mode
  {
    var (hasLocked, entered) := GuardEnter(s, grants[0]);
    assert IsLocked(entered);
    NestedOverLockedIsNoOp(entered, grants[1..]);
    SingleGuard(s, grants[0]);
  }

  /**
   * Because the guard ignores `lockRead`'s result, an outer guard whose
   * acquisition timed out leaves the binding unlocked, and an inner guard
   * then makes a second lockRead and a second unlock.
   */
  lemma DeniedOuterLetsInnerRetry(s: LockState)
    requires !IsLocked(s)
    ensures Nested(s, [false, true]).calls ==
      s.calls + [LockReadCall(ReadLockTimeoutMicros), LockReadCall(ReadLockTimeoutMicros), UnlockCall, UnlockCall]
    ensures Nested(s, [false, true]).mode == s.mode
  {
    var t := LockReadCall(ReadLockTimeoutMicros);
    var (h1, s1) := GuardEnter(s, false);
    assert s1 == LockState(s.mode, s.calls + [t]);
    assert [true][1..] == [];
    assert Nested(s1, [true]) == GuardExit(GuardEnter(s1, true).1, true);
    assert Nested(s, [false, true]) == GuardExit(Nested(s1, [true]), true);
    assert s.calls + [t] + [t] + [UnlockCall] + [UnlockCall] == s.calls + [t, t, UnlockCall, UnlockCall];
  }

  // ---------------------------------------------------------------------------
  // The objects
  // ---------------------------------------------------------------------------

  /** A transaction's binding to one collection, reduced to its lock. */
  class TransactionCollection {
    var mode: LockMode
    /** Every lock call made on this binding, in order. */
    ghost var calls: seq<LockCall>

    ghost function State(): LockState
      reads this
    {
      LockState(mode, calls)
    }

    constructor ()
      ensures mode == Unlocked && calls == []
    {
      mode := Unlocked;
      calls := [];
    }

    /** `isLocked()`: whether the binding holds a lock of any mode. */
    predicate IsLockedNow()
      reads this
      ensures IsLockedNow() <==> IsLocked(State())
    {
      mode != Unlocked
    }

    /**
     * Acquire the read lock within `timeoutMicros`. Whether the blocking
     * acquisition succeeds in time is decided outside the model, by `granted`.
     */
    method LockRead(timeoutMicros: nat, granted: bool) returns (r: Outcome<Error>)
      modifies this
      ensures State() == LockReadTransition(old(State()), timeoutMicros, granted)
      ensures r == if granted then Pass else Fail(LockTimeout)
    {
      calls := calls + [LockReadCall(timeoutMicros)];
      if granted {
        mode := ReadLocked;
        r := Pass;
      } else {
        r := Fail(LockTimeout);
      }
    }

    /** Release whatever mode is held. */
    method Unlock()
      modifies this
      ensures State() == UnlockTransition(old(State()))
    {
      calls := calls + [UnlockCall];
      mode := Unlocked;
    }
  }

  /** The scoped read-lock guard. */
  class CollectionReadLock {
    const collection: TransactionCollection
    /** Whether this guard called `lockRead` and so owes the `unlock`. */
    var hasLocked: bool

    /** Take the read lock unless the binding is already locked. */
    constructor (collection: TransactionCollection, trx: MvccTransaction.Transaction, granted: bool)
      modifies collection
      ensures this.collection == collection
      ensures (hasLocked, collection.State()) == GuardEnter(old(collection.State()), granted)
      ensures hasLocked <==> !old(collection.IsLockedNow())
    {
      this.collection := collection;
      hasLocked := false;
      new;
      if !collection.IsLockedNow() {
        var _ := collection.LockRead(ReadLockTimeoutMicros, granted);
        hasLocked := true;
      }
    }

    /** The destructor: unlock only if this guard took the lock. */
    method Destroy()
      modifies collection
      ensures collection.State() == GuardExit(old(collection.State()), hasLocked)
    {
      if hasLocked {
        collection.Unlock();
      }
    }
  }

  /**
   * Two guards nested on one binding: afterwards the lock mode is what it
   * was before, and when the outer acquisition is granted exactly one
   * lockRead/unlock pair was made; over a locked binding none was.
   */
  method NestedReadLocks(c: TransactionCollection, trx: MvccTransaction.Transaction, outerGranted: bool, innerGranted: bool)
    modifies c
    ensures c.State() == Nested(old(c.State()), [outerGranted, innerGranted])
    ensures c.mode == old(c.mode)
    ensures !old(c.IsLockedNow()) && outerGranted ==>
      c.calls == old(c.calls) + [LockReadCall(ReadLockTimeoutMicros), UnlockCall]
    ensures old(c.IsLockedNow()) ==> c.calls == old(c.calls)
  {
    ghost var before := c.State();
    var outer := new CollectionReadLock(c, trx, outerGranted);
    ghost var afterOuter := c.State();
    var inner := new CollectionReadLock(c, trx, innerGranted);
    inner.Destroy();
    assert c.State() == Nested(afterOuter, [innerGranted]) by {
      assert [innerGranted][1..] == [];
    }
    outer.Destroy();
    assert [outerGranted, innerGranted][1..] == [innerGranted];
    NestedRestoresMode(before, [outerGranted, innerGranted]);
    if !IsLocked(before) && outerGranted {
      NestedGrantedSinglePair(before, [outerGranted, innerGranted]);
    }
    if IsLocked(before) {
      NestedOverLockedIsNoOp(before, [outerGranted, innerGranted]);
    }
  }
}
