/**
 * Per-collection modification statistics of a transaction and the operations
 * the transaction performs on its statistics map: preparing an entry,
 * counting inserts and removes, merging a committed sub-transaction's
 * statistics and asking whether anything was modified.
 */
module TransactionStats {
  import opened Wrappers

  /** The identity of a collection (`TRI_voc_cid_t`). */
  type CollectionId = nat

  /** Counters of attempted and successful data-modifying operations on one collection. */
  datatype CollectionStats = CollectionStats(
    numInserted: nat,
    numInsertedSuccessful: nat,
    numRemoved: nat,
    numRemovedSuccessful: nat)

  /** The entry a freshly prepared collection starts with. */
  const NoStats := CollectionStats(0, 0, 0, 0)

  /** The statistics of a transaction, keyed by collection. */
  type StatsMap = map<CollectionId, CollectionStats>

  /** Successful operations never outnumber attempted ones. */
  predicate Consistent(cs: CollectionStats)
  {
    cs.numInsertedSuccessful <= cs.numInserted && cs.numRemovedSuccessful <= cs.numRemoved
  }

  predicate AllConsistent(stats: StatsMap)
  {
    forall c | c in stats :: Consistent(stats[c])
  }

  /** Every counter of `a` is at most the corresponding counter of `b`. */
  predicate AtMost(a: CollectionStats, b: CollectionStats)
  {
    && a.numInserted <= b.numInserted
    && a.numInsertedSuccessful <= b.numInsertedSuccessful
    && a.numRemoved <= b.numRemoved
    && a.numRemovedSuccessful <= b.numRemovedSuccessful
  }

  /** Whether one collection saw a successful insert or remove. */
  predicate HasSuccessfulOperations(cs: CollectionStats)
  {
    cs.numInsertedSuccessful > 0 || cs.numRemovedSuccessful > 0
  }

  /** Whether the statistics record any successful data-modifying operation. */
  predicate HasModifications(stats: StatsMap)
  {
    exists c | c in stats :: HasSuccessfulOperations(stats[c])
  }

  /** The entry of `c`, or an empty entry when `c` is not present. */
  function Lookup(stats: StatsMap, c: CollectionId): CollectionStats
  {
    if c in stats then stats[c] else NoStats
  }

  function AddStats(a: CollectionStats, b: CollectionStats): CollectionStats
  {
    CollectionStats(
      a.numInserted + b.numInserted,
      a.numInsertedSuccessful + b.numInsertedSuccessful,
      a.numRemoved + b.numRemoved,
      a.numRemovedSuccessful + b.numRemovedSuccessful)
  }

  /**
   * Make sure `c` has an entry, so that later increments for `c` cannot fail.
   * An existing entry is kept as it is.
   */
  function PrepareStats(stats: StatsMap, c: CollectionId): (r: StatsMap)
    ensures c in r && r.Keys == stats.Keys + {c}
    ensures forall k | k in stats :: r[k] == stats[k]
    ensures c !in stats ==> r[c] == NoStats
    ensures HasModifications(r) <==> HasModifications(stats)
  {
    if c in stats then stats else stats[c := NoStats]
  }

  /** Count one insert into `c`; only a successful one counts as a modification. */
  function IncNumInserted(stats: StatsMap, c: CollectionId, successful: bool): (r: StatsMap)
    requires c in stats
    ensures r.Keys == stats.Keys
    ensures forall k | k in stats && k != c :: r[k] == stats[k]
    ensures AtMost(stats[c], r[c]) && r[c].numInserted == stats[c].numInserted + 1
    ensures r[c].numInsertedSuccessful == stats[c].numInsertedSuccessful + (if successful then 1 else 0)
    ensures r[c].numRemoved == stats[c].numRemoved
    ensures r[c].numRemovedSuccessful == stats[c].numRemovedSuccessful
    ensures HasModifications(r) <==> HasModifications(stats) || successful
  {
    var entry := stats[c];
    var r := stats[c := entry.(numInserted := entry.numInserted + 1,
                               numInsertedSuccessful := entry.numInsertedSuccessful + if successful then 1 else 0)];
    assert successful ==> HasSuccessfulOperations(r[c]);
    assert HasModifications(r) ==> HasModifications(stats) || successful by {
      if HasModifications(r) {
        var k :| k in r && HasSuccessfulOperations(r[k]);
        if k != c || !successful {
          assert HasSuccessfulOperations(stats[k]);
        }
      }
    }
    r
  }

  /** Count one remove from `c`; only a successful one counts as a modification. */
  function IncNumRemoved(stats: StatsMap, c: CollectionId, successful: bool): (r: StatsMap)
    requires c in stats
    ensures r.Keys == stats.Keys
    ensures forall k | k in stats && k != c :: r[k] == stats[k]
    ensures AtMost(stats[c], r[c]) && r[c].numRemoved == stats[c].numRemoved + 1
    ensures r[c].numRemovedSuccessful == stats[c].numRemovedSuccessful + (if successful then 1 else 0)
    ensures r[c].numInserted == stats[c].numInserted
    ensures r[c].numInsertedSuccessful == stats[c].numInsertedSuccessful
    ensures HasModifications(r) <==> HasModifications(stats) || successful
  {
    var entry := stats[c];
    var r := stats[c := entry.(numRemoved := entry.numRemoved + 1,
                               numRemovedSuccessful := entry.numRemovedSuccessful + if successful then 1 else 0)];
    assert successful ==> HasSuccessfulOperations(r[c]);
    assert HasModifications(r) ==> HasModifications(stats) || successful by {
      if HasModifications(r) {
        var k :| k in r && HasSuccessfulOperations(r[k]);
        if k != c || !successful {
          assert HasSuccessfulOperations(stats[k]);
        }
      }
    }
    r
  }

  /**
   * Fold a committed sub-transaction's statistics into its parent's: every
   * counter of a collection is the sum of the two.
   */
  function MergeStats(parent: StatsMap, child: StatsMap): (r: StatsMap)
    ensures r.Keys == parent.Keys + child.Keys
    ensures forall c | c in r :: r[c] == AddStats(Lookup(parent, c), Lookup(child, c))
    ensures forall c | c in parent :: AtMost(parent[c], r[c])
    ensures forall c | c in child :: AtMost(child[c], r[c])
    ensures HasModifications(r) <==> HasModifications(parent) || HasModifications(child)
  {
    var r := map c | c in parent.Keys + child.Keys :: AddStats(Lookup(parent, c), Lookup(child, c));
    SumHasModifications(parent, child, r);
    r
  }

  /** A map of per-collection sums has modifications exactly when one of the summands has. */
  lemma SumHasModifications(parent: StatsMap, child: StatsMap, r: StatsMap)
    requires r.Keys == parent.Keys + child.Keys
    requires forall c | c in r :: r[c] == AddStats(Lookup(parent, c), Lookup(child, c))
    ensures HasModifications(r) <==> HasModifications(parent) || HasModifications(child)
  {
    if HasModifications(parent) {
      var k :| k in parent && HasSuccessfulOperations(parent[k]);
      SumSuccessful(Lookup(parent, k), Lookup(child, k));
      assert k in r && HasSuccessfulOperations(r[k]);
    }
    if HasModifications(child) {
      var k :| k in child && HasSuccessfulOperations(child[k]);
      SumSuccessful(Lookup(parent, k), Lookup(child, k));
      assert k in r && HasSuccessfulOperations(r[k]);
    }
    if HasModifications(r) {
      var k :| k in r && HasSuccessfulOperations(r[k]);
      SumSuccessful(Lookup(parent, k), Lookup(child, k));
      if HasSuccessfulOperations(Lookup(parent, k)) {
        assert k in parent && HasSuccessfulOperations(parent[k]);
      } else {
        assert k in child && HasSuccessfulOperations(child[k]);
      }
    }
  }

  lemma SumSuccessful(a: CollectionStats, b: CollectionStats)
    ensures HasSuccessfulOperations(AddStats(a, b)) <==> HasSuccessfulOperations(a) || HasSuccessfulOperations(b)
  {
  }

  /** Merging keeps successful counts within attempted counts. */
  lemma MergeKeepsConsistent(parent: StatsMap, child: StatsMap)
    requires AllConsistent(parent) && AllConsistent(child)
    ensures AllConsistent(MergeStats(parent, child))
  {
    var r := MergeStats(parent, child);
    forall c | c in r ensures Consistent(r[c]) {
      assert Consistent(Lookup(parent, c)) && Consistent(Lookup(child, c));
    }
  }

  // ---------------------------------------------------------------------------
  // Sequences of statistics calls
  // ---------------------------------------------------------------------------

  /** One call a transaction receives on its statistics. */
  datatype StatsCall =
    | Prepare(collection: CollectionId)
    | Insert(collection: CollectionId, successful: bool)
    | Remove(collection: CollectionId, successful: bool)

  /** Whether a call records a successful data modification. */
  predicate IsSuccessfulModification(call: StatsCall)
  {
    !call.Prepare? && call.successful
  }

  /**
   * Apply a sequence of calls in order. An increment for a collection without
   * an entry is the case the source does not guarantee; it yields None.
   */
  function Replay(stats: StatsMap, calls: seq<StatsCall>): Option<StatsMap>
    decreases |calls|
  {
    if calls == [] then Some(stats)
    else
      match calls[0]
      case Prepare(c) => Replay(PrepareStats(stats, c), calls[1..])
      case Insert(c, ok) =>
        if c in stats then Replay(IncNumInserted(stats, c, ok), calls[1..]) else None
      case Remove(c, ok) =>
        if c in stats then Replay(IncNumRemoved(stats, c, ok), calls[1..]) else None
  }

  /**
   * Every increment in `calls` names a collection that already had an entry
   * (in `keys`) or was prepared by an earlier call.
   */
  predicate PreparedBeforeUse(keys: set<CollectionId>, calls: seq<StatsCall>)
    decreases |calls|
  {
    if calls == [] then true
    else
      match calls[0]
      case Prepare(c) => PreparedBeforeUse(keys + {c}, calls[1..])
      case Insert(c, _) => c in keys && PreparedBeforeUse(keys, calls[1..])
      case Remove(c, _) => c in keys && PreparedBeforeUse(keys, calls[1..])
  }

  /** The calls all succeed exactly when every increment was prepared before it. */
  lemma {:induction false} ReplaySucceedsIffPrepared(stats: StatsMap, calls: seq<StatsCall>)
    ensures Replay(stats, calls).Some? <==> PreparedBeforeUse(stats.Keys, calls)
    decreases |calls|
  {
    if calls != [] {
      match calls[0]
      case Prepare(c) =>
        ReplaySucceedsIffPrepared(PrepareStats(stats, c), calls[1..]);
      case Insert(c, ok) =>
        if c in stats { ReplaySucceedsIffPrepared(IncNumInserted(stats, c, ok), calls[1..]); }
      case Remove(c, ok) =>
        if c in stats { ReplaySucceedsIffPrepared(IncNumRemoved(stats, c, ok), calls[1..]); }
    }
  }

  /** A prepared collection can take any number of increments without failing. */
  lemma {:induction false} IncrementsAfterPrepareSucceed(stats: StatsMap, c: CollectionId, calls: seq<StatsCall>)
    requires forall i | 0 <= i < |calls| :: calls[i].collection == c
    ensures Replay(stats, [Prepare(c)] + calls).Some?
  {
    var keys := stats.Keys + {c};
    AllOnPreparedKey(keys, c, calls);
    assert ([Prepare(c)] + calls)[1..] == calls;
    ReplaySucceedsIffPrepared(stats, [Prepare(c)] + calls);
  }

  lemma {:induction false} AllOnPreparedKey(keys: set<CollectionId>, c: CollectionId, calls: seq<StatsCall>)
    requires c in keys
    requires forall i | 0 <= i < |calls| :: calls[i].collection == c
    ensures PreparedBeforeUse(keys, calls)
    decreases |calls|
  {
    if calls != [] {
      assert keys + {c} == keys;
      AllOnPreparedKey(keys, c, calls[1..]);
    }
  }

  /** Counters never decrease and entries never disappear along a sequence of calls. */
  lemma {:induction false} ReplayNeverDecreases(stats: StatsMap, calls: seq<StatsCall>)
    ensures Replay(stats, calls).Some? ==>
      var r := Replay(stats, calls).value;
      stats.Keys <= r.Keys && forall c | c in stats :: AtMost(stats[c], r[c])
    decreases |calls|
  {
    if calls != [] && Replay(stats, calls).Some? {
      var next :=
        match calls[0]
        case Prepare(c) => PrepareStats(stats, c)
        case Insert(c, ok) => IncNumInserted(stats, c, ok)
        case Remove(c, ok) => IncNumRemoved(stats, c, ok);
      assert Replay(stats, calls) == Replay(next, calls[1..]);
      assert stats.Keys <= next.Keys && forall c | c in stats :: AtMost(stats[c], next[c]);
      ReplayNeverDecreases(next, calls[1..]);
    }
  }

  /** Successful counts stay within attempted counts along a sequence of calls. */
  lemma {:induction false} ReplayKeepsConsistent(stats: StatsMap, calls: seq<StatsCall>)
    requires AllConsistent(stats)
    ensures Replay(stats, calls).Some? ==> AllConsistent(Replay(stats, calls).value)
    decreases |calls|
  {
    if calls != [] && Replay(stats, calls).Some? {
      match calls[0]
      case Prepare(c) =>
        ReplayKeepsConsistent(PrepareStats(stats, c), calls[1..]);
      case Insert(c, ok) =>
        ReplayKeepsConsistent(IncNumInserted(stats, c, ok), calls[1..]);
      case Remove(c, ok) =>
        ReplayKeepsConsistent(IncNumRemoved(stats, c, ok), calls[1..]);
    }
  }

  /**
   * Whether the transaction has modifications after a sequence of calls:
   * exactly when it had some before or one of the calls was a successful
   * insert or remove. Failed operations never make it true.
   */
  lemma {:induction false} ReplayModificationsOnlyFromSuccess(stats: StatsMap, calls: seq<StatsCall>)
    ensures Replay(stats, calls).Some? ==>
      (HasModifications(Replay(stats, calls).value) <==>
       HasModifications(stats) || exists i | 0 <= i < |calls| :: IsSuccessfulModification(calls[i]))
    decreases |calls|
  {
    if calls != [] && Replay(stats, calls).Some? {
      var next :=
        match calls[0]
        case Prepare(c) => PrepareStats(stats, c)
        case Insert(c, ok) => IncNumInserted(stats, c, ok)
        case Remove(c, ok) => IncNumRemoved(stats, c, ok);
      assert Replay(stats, calls) == Replay(next, calls[1..]);
      assert HasModifications(next) <==> HasModifications(stats) || IsSuccessfulModification(calls[0]);
      ReplayModificationsOnlyFromSuccess(next, calls[1..]);
      var tail := calls[1..];
      assert (exists i | 0 <= i < |calls| :: IsSuccessfulModification(calls[i])) <==>
             IsSuccessfulModification(calls[0]) || exists j | 0 <= j < |tail| :: IsSuccessfulModification(tail[j]) by {
        if exists i | 0 <= i < |calls| :: IsSuccessfulModification(calls[i]) {
          var i :| 0 <= i < |calls| && IsSuccessfulModification(calls[i]);
          if i > 0 { assert tail[i - 1] == calls[i]; }
        }
        if exists j | 0 <= j < |tail| :: IsSuccessfulModification(tail[j]) {
          var j :| 0 <= j < |tail| && IsSuccessfulModification(tail[j]);
          assert calls[j + 1] == tail[j];
        }
      }
    }
  }

  /** A sub-transaction that inserted 3 documents into a collection where its parent inserted 5 leaves 8 after merging. */
  lemma MergeAddsCounts(parent: StatsMap, child: StatsMap, c: CollectionId)
    requires c in parent && c in child
    requires parent[c].numInserted == 5 && child[c].numInserted == 3
    ensures MergeStats(parent, child)[c].numInserted == 8
  {
  }
}
