/**
 * The value types of the MVCC transaction header: the status and visibility
 * enumerations with their explicit numeric encodings, transaction ids, the
 * TransactionInfo record and the error kinds the model reports.
 */
module TransactionTypes {

  /** A wall-clock time stamp (a `double` in the source), kept opaque. */
  type Time = nat

  /** The database handle a transaction works on, kept opaque. */
  type DatabaseId = nat

  /** A transaction id; only its own numeric part is modelled. */
  datatype TransactionId = TransactionId(own: nat)

  /** Error kinds reported where the source's callers can observe a refusal. */
  datatype Error = AlreadyHasOngoingSubTransaction | ChildStillOngoing | LockTimeout

  // ---------------------------------------------------------------------------
  // Status
  // ---------------------------------------------------------------------------

  /** The three statuses a transaction can have. */
  datatype StatusType = Ongoing | Committed | RolledBack

  /** The `uint16_t` value behind each status. */
  function StatusCode(s: StatusType): (code: nat)
    ensures 1 <= code <= 3
  {
    match s
    case Ongoing => 1
    case Committed => 2
    case RolledBack => 3
  }

  predicate IsOngoingStatus(s: StatusType) { s == Ongoing }
  predicate IsCommittedStatus(s: StatusType) { s == Committed }
  predicate IsRolledBackStatus(s: StatusType) { s == RolledBack }

  /** Every status satisfies exactly one of the three status predicates. */
  lemma ExactlyOneStatus(s: StatusType)
    ensures IsOngoingStatus(s) || IsCommittedStatus(s) || IsRolledBackStatus(s)
    ensures IsOngoingStatus(s) ==> !IsCommittedStatus(s) && !IsRolledBackStatus(s)
    ensures IsCommittedStatus(s) ==> !IsOngoingStatus(s) && !IsRolledBackStatus(s)
    ensures IsRolledBackStatus(s) ==> !IsOngoingStatus(s) && !IsCommittedStatus(s)
  {
  }

  /** The status encoding is one-to-one. */
  lemma StatusCodeInjective(s: StatusType, t: StatusType)
    ensures StatusCode(s) == StatusCode(t) <==> s == t
  {
  }

  // ---------------------------------------------------------------------------
  // Visibility
  // ---------------------------------------------------------------------------

  /** What one transaction can see of another. */
  datatype VisibilityType = Invisible | Concurrent | Visible

  /** The `uint16_t` value behind each visibility; the order of these values is promised. */
  function VisibilityCode(v: VisibilityType): (code: nat)
    ensures 1 <= code <= 3
  {
    match v
    case Invisible => 1
    case Concurrent => 2
    case Visible => 3
  }

  /** `a < b` on visibility values, as C++ compares the underlying enum values. */
  predicate VisibilityLess(a: VisibilityType, b: VisibilityType)
  {
    VisibilityCode(a) < VisibilityCode(b)
  }

  /** INVISIBLE < CONCURRENT < VISIBLE, and the order is strict and total. */
  lemma VisibilityStrictTotalOrder(a: VisibilityType, b: VisibilityType, c: VisibilityType)
    ensures VisibilityLess(Invisible, Concurrent) && VisibilityLess(Concurrent, Visible)
    ensures !VisibilityLess(a, a)
    ensures VisibilityLess(a, b) ==> !VisibilityLess(b, a)
    ensures VisibilityLess(a, b) && VisibilityLess(b, c) ==> VisibilityLess(a, c)
    ensures a != b ==> VisibilityLess(a, b) || VisibilityLess(b, a)
  {
  }

  /** `visibility(x) < VISIBLE` means exactly "not VISIBLE", and INVISIBLE is the least value. */
  lemma BelowVisibleMeansNotVisible(v: VisibilityType)
    ensures VisibilityLess(v, Visible) <==> v != Visible
    ensures !VisibilityLess(v, Invisible)
  {
  }

  // ---------------------------------------------------------------------------
  // TransactionInfo
  // ---------------------------------------------------------------------------

  /** A compact record of a transaction: its own id and its start time. */
  datatype TransactionInfo = TransactionInfo(own: nat, startTime: Time)

  /** Construction from a full transaction id keeps only the id's own part. */
  function InfoFromId(id: TransactionId, startTime: Time): (info: TransactionInfo)
    ensures info.own == id.own && info.startTime == startTime
  {
    TransactionInfo(id.own, startTime)
  }

  /** Copy construction: the copy carries the same id and start time. */
  function CopyInfo(other: TransactionInfo): (info: TransactionInfo)
    ensures info == other
  {
    TransactionInfo(other.own, other.startTime)
  }

  /** Assignment: both fields of the target are overwritten by those of `other`. */
  function AssignInfo(target: TransactionInfo, other: TransactionInfo): (info: TransactionInfo)
    ensures info == other
  {
    target.(own := other.own, startTime := other.startTime)
  }

  /** The two constructors agree: building from an id is building from its own part. */
  lemma InfoConstructorsAgree(id: TransactionId, startTime: Time)
    ensures InfoFromId(id, startTime) == TransactionInfo(id.own, startTime)
    ensures CopyInfo(InfoFromId(id, startTime)).own == id.own
  {
  }
}
