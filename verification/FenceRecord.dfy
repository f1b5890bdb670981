/**
 * The durable lease-fence record and its validators.
 *
 * Hashes are free constructors (two digests agree exactly when their inputs do).
 * A canonical server time is the instant it names, in nanoseconds since the epoch;
 * module CanonicalTime shows that canonical text and instant determine each other.
 * Local times are canonical millisecond instants.
 */
module FenceRecord {
  import opened Basics

  datatype Digest =
    | SemanticKey(session: string, activation: string)
    | RequestReference(session: string, activation: string)
    | TokenHash(token: string)

  datatype Data = Data(
    semanticKey: Digest,
    sessionId: string,
    executorId: string,
    operationId: string,
    activationId: string,
    credentialRevision: int,
    leaseEpoch: int,
    sourceCredentialRevision: int,
    revocationEpoch: int,
    bindingDigest: string,
    tokenHash: Digest,
    requestReference: Digest,
    requestHash: string,
    renewedAt: int,
    leaseExpiresAt: int,
    replayed: bool,
    recovered: bool)

  datatype Status = Fresh | RecoveryRequired | Removed

  datatype Record = Record(
    version: int,
    generation: int,
    status: Status,
    data: Data,
    createdAt: int,
    updatedAt: int,
    removedAt: Option<int>)

  /** The caller's activation tuple and the transport's renewal result. */
  datatype Target = Target(
    sessionId: string,
    activationToken: string,
    operationId: string,
    activationId: string,
    credentialRevision: int,
    leaseEpoch: int,
    sourceCredentialRevision: int,
    revocationEpoch: int,
    bindingDigest: string)

  datatype Lease = Lease(
    activationId: string,
    executorId: string,
    operationId: string,
    credentialRevision: int,
    leaseEpoch: int,
    sourceCredentialRevision: int,
    revocationEpoch: int,
    renewedAt: int,
    leaseExpiresAt: int,
    replayed: bool)

  datatype RenewalResult = RenewalResult(
    requestReference: Digest,
    requestHash: string,
    recovered: bool,
    lease: Lease)

  /** Date.parse keeps whole milliseconds, rounding toward minus infinity. */
  function ParseMs(nanos: int): int {
    nanos / 1_000_000
  }

  predicate PositiveRevision(n: int) {
    SafeInteger(n) && n > 0
  }

  predicate NonNegativeRevision(n: int) {
    SafeInteger(n) && n >= 0
  }

  /** One unpadded base64url segment whose last character leaves no bits over. */
  predicate CanonicalSegment(s: string) {
    && s != "" && |s| % 4 != 1
    && (forall c <- s :: IdChar(c))
    && (|s| % 4 == 2 ==> s[|s| - 1] in "AQgw")
    && (|s| % 4 == 3 ==> s[|s| - 1] in "AEIMQUYcgkosw048")
  }

  const MAX_TICKET := 16352

  /** A compact JWS: three canonical segments joined by points. */
  predicate ValidTicket(s: string) {
    |s| <= MAX_TICKET && exists i, j | 0 <= i < j < |s| ::
      && s[i] == '.' && s[j] == '.'
      && CanonicalSegment(s[..i]) && CanonicalSegment(s[i + 1..j]) && CanonicalSegment(s[j + 1..])
  }

  predicate ValidTarget(t: Target) {
    && SafeId(t.sessionId)
    && ValidTicket(t.activationToken)
    && SafeId(t.operationId)
    && SafeId(t.activationId)
    && PositiveRevision(t.credentialRevision)
    && PositiveRevision(t.leaseEpoch)
    && NonNegativeRevision(t.sourceCredentialRevision)
    && t.sourceCredentialRevision < t.credentialRevision
    && NonNegativeRevision(t.revocationEpoch)
    && IsDigest(t.bindingDigest)
  }

  predicate ValidLeaseWindow(renewedAt: int, leaseExpiresAt: int) {
    && ParseMs(renewedAt) < ParseMs(leaseExpiresAt)
    && ParseMs(leaseExpiresAt) - ParseMs(renewedAt) <= 30_000
  }

  predicate ValidResult(r: RenewalResult, t: Target) {
    && r.requestReference == RequestReference(t.sessionId, t.activationId)
    && IsDigest(r.requestHash)
    && r.lease.activationId == t.activationId
    && SafeId(r.lease.executorId)
    && r.lease.operationId == t.operationId
    && r.lease.credentialRevision == t.credentialRevision
    && r.lease.leaseEpoch == t.leaseEpoch
    && r.lease.sourceCredentialRevision == t.sourceCredentialRevision
    && r.lease.revocationEpoch == t.revocationEpoch
    && ValidLeaseWindow(r.lease.renewedAt, r.lease.leaseExpiresAt)
  }

  predicate ValidData(d: Data) {
    && d.semanticKey == SemanticKey(d.sessionId, d.activationId)
    && SafeId(d.sessionId)
    && SafeId(d.executorId)
    && SafeId(d.operationId)
    && SafeId(d.activationId)
    && PositiveRevision(d.credentialRevision)
    && PositiveRevision(d.leaseEpoch)
    && NonNegativeRevision(d.sourceCredentialRevision)
    && d.sourceCredentialRevision < d.credentialRevision
    && NonNegativeRevision(d.revocationEpoch)
    && IsDigest(d.bindingDigest)
    && d.tokenHash.TokenHash?
    && d.requestReference == RequestReference(d.sessionId, d.activationId)
    && IsDigest(d.requestHash)
    && ValidLeaseWindow(d.renewedAt, d.leaseExpiresAt)
  }

  /** Joins a target and its validated result; None when either is malformed. */
  function RenewalData(t: Target, r: RenewalResult): (d: Option<Data>)
    ensures d.Some? ==> ValidData(d.value) && d.value.activationId == t.activationId
  {
    if !ValidTarget(t) || !ValidResult(r, t) then None
    else Some(Data(
      SemanticKey(t.sessionId, t.activationId), t.sessionId, r.lease.executorId, t.operationId,
      t.activationId, t.credentialRevision, t.leaseEpoch, t.sourceCredentialRevision,
      t.revocationEpoch, t.bindingDigest, TokenHash(t.activationToken), r.requestReference,
      r.requestHash, r.lease.renewedAt, r.lease.leaseExpiresAt, r.lease.replayed, r.recovered))
  }

  function RenewalStatus(d: Data): Status {
    if d.replayed || d.recovered then RecoveryRequired else Fresh
  }

  predicate ValidRecord(r: Record) {
    && r.version == 1
    && PositiveRevision(r.generation)
    && r.createdAt <= r.updatedAt
    && ValidData(r.data)
    && (r.status == Fresh ==> !r.data.recovered && !r.data.replayed && r.removedAt == None)
    && (r.status == RecoveryRequired ==> (r.data.recovered || r.data.replayed) && r.removedAt == None)
    && (r.status == Removed ==> r.generation >= 2 && r.removedAt == Some(r.updatedAt))
  }

  predicate Active(r: Record) {
    r.status != Removed
  }

  predicate SameFrozenTuple(l: Data, r: Data) {
    && l.semanticKey == r.semanticKey
    && l.sessionId == r.sessionId
    && l.executorId == r.executorId
    && l.operationId == r.operationId
    && l.activationId == r.activationId
    && l.credentialRevision == r.credentialRevision
    && l.leaseEpoch == r.leaseEpoch
    && l.sourceCredentialRevision == r.sourceCredentialRevision
    && l.revocationEpoch == r.revocationEpoch
    && l.bindingDigest == r.bindingDigest
    && l.tokenHash == r.tokenHash
    && l.requestReference == r.requestReference
  }

  predicate SameServerRenewal(l: Data, r: Data) {
    && SameFrozenTuple(l, r)
    && l.renewedAt == r.renewedAt
    && l.leaseExpiresAt == r.leaseExpiresAt
    && l.replayed == r.replayed
  }

  predicate MonotonicRenewal(current: Data, next: Data) {
    && ParseMs(current.renewedAt) < ParseMs(next.renewedAt)
    && ParseMs(current.leaseExpiresAt) <= ParseMs(next.leaseExpiresAt)
  }

  predicate ValidRemovalSuccessor(active: Record, removed: Record) {
    && active.status != Removed
    && removed.status == Removed
    && removed.generation == active.generation + 1
    && removed.createdAt == active.createdAt
    && active.updatedAt <= removed.updatedAt
    && removed.removedAt == Some(removed.updatedAt)
    && active.data == removed.data
  }

  predicate ValidSuccessor(current: Record, next: Record) {
    && current.status != Removed
    && next.generation == current.generation + 1
    && SameFrozenTuple(current.data, next.data)
    && next.createdAt == current.createdAt
    && current.updatedAt <= next.updatedAt
    && if next.status == Removed then
         ValidRemovalSuccessor(current, next)
       else
         && next.status == RenewalStatus(next.data)
         && next.removedAt == None
         && if current.data.requestHash == next.data.requestHash then
              && SameServerRenewal(current.data, next.data)
              && !current.data.recovered
              && next.data.recovered
              && next.status == RecoveryRequired
            else
              MonotonicRenewal(current.data, next.data)
  }

  /** Every neighbour in `s` is a valid successor of the record before it. */
  ghost predicate Chain(s: seq<Record>) {
    forall i :: 0 <= i < |s| - 1 ==> ValidSuccessor(s[i], s[i + 1])
  }

  /** What one generation promises about any earlier one of the same activation. */
  ghost predicate Follows(earlier: Record, later: Record) {
    && earlier.status != Removed
    && earlier.generation < later.generation
    && SameFrozenTuple(earlier.data, later.data)
    && earlier.createdAt == later.createdAt
    && earlier.updatedAt <= later.updatedAt
    && ParseMs(earlier.data.renewedAt) <= ParseMs(later.data.renewedAt)
    && ParseMs(earlier.data.leaseExpiresAt) <= ParseMs(later.data.leaseExpiresAt)
  }

  /** A chain is monotone end to end, not only between neighbours. */
  lemma {:induction false} ChainFollows(s: seq<Record>, i: nat, j: nat)
    requires Chain(s) && i < j < |s|
    ensures Follows(s[i], s[j])
    ensures s[j].generation == s[i].generation + (j - i)
    decreases j
  {
    assert ValidSuccessor(s[j - 1], s[j]);
    if i < j - 1 {
      ChainFollows(s, i, j - 1);
    }
  }

  lemma ChainPrepend(r: Record, s: seq<Record>)
    requires Chain(s)
    requires s != [] ==> ValidSuccessor(r, s[0])
    ensures Chain([r] + s)
  {
    var t := [r] + s;
    forall i | 0 <= i < |t| - 1 ensures ValidSuccessor(t[i], t[i + 1]) {
      if i > 0 {
        assert t[i] == s[i - 1] && t[i + 1] == s[i];
      }
    }
  }
}
