/**
 * What a renewal, a removal and a freshness question come to, field by field: written over the
 * caller's target and result and the head that is there, for comparison with the steps of
 * FenceHistory.
 */
module RenewalRules {
  import opened Basics
  import opened FenceRecord
  import opened FenceHistory

  // ---- A well-formed request ----

  /** The six bits a base64url character stands for. */
  function Sextet(c: char): int {
    if 'A' <= c <= 'Z' then c as int - 'A' as int
    else if 'a' <= c <= 'z' then c as int - 'a' as int + 26
    else if '0' <= c <= '9' then c as int - '0' as int + 52
    else if c == '-' then 62
    else if c == '_' then 63
    else -1
  }

  /** Whole bytes, and no bit set beyond them. */
  predicate WholeBytes(s: string) {
    && |s| > 0 && (forall c <- s :: Sextet(c) >= 0)
    && match |s| % 4
       case 0 => true
       case 2 => Sextet(s[|s| - 1]) % 16 == 0
       case 3 => Sextet(s[|s| - 1]) % 4 == 0
       case _ => false
  }

  ghost predicate CompactTicket(s: string) {
    |s| <= 16 * 1024 - 32
    && exists a, b, c :: s == Joined(a, b, c) && WholeBytes(a) && WholeBytes(b) && WholeBytes(c)
  }

  function Joined(a: string, b: string, c: string): string {
    a + "." + b + "." + c
  }

  lemma SegmentRules(s: string)
    ensures CanonicalSegment(s) <==> WholeBytes(s)
  {
    if s != "" {
      var last := s[|s| - 1];
      assert last in s;
      forall c <- s ensures IdChar(c) <==> Sextet(c) >= 0 {
      }
      LastBits(last);
    }
  }

  lemma LastBits(c: char)
    ensures c in "AQgw" <==> Sextet(c) >= 0 && Sextet(c) % 16 == 0
    ensures c in "AEIMQUYcgkosw048" <==> Sextet(c) >= 0 && Sextet(c) % 4 == 0
  {
    FourBits(c);
    TwoBits(c);
  }

  lemma FourBits(c: char)
    ensures c in "AQgw" <==> Sextet(c) >= 0 && Sextet(c) % 16 == 0
  {
  }

  lemma TwoBits(c: char)
    ensures c in "AEIMQUYcgkosw048" <==> Sextet(c) >= 0 && Sextet(c) % 4 == 0
  {
  }

  lemma TicketParts(s: string, i: nat, j: nat)
    requires i < j < |s| && s[i] == '.' && s[j] == '.'
    ensures s == Joined(s[..i], s[i + 1..j], s[j + 1..])
  {
  }

  lemma JoinedParts(a: string, b: string, c: string)
    ensures var s, i, j := Joined(a, b, c), |a|, |a| + 1 + |b|;
      && j < |s| && s[i] == '.' && s[j] == '.'
      && s[..i] == a && s[i + 1..j] == b && s[j + 1..] == c
  {
  }

  lemma ThreeSegments(a: string, b: string, c: string)
    ensures CanonicalSegment(a) && CanonicalSegment(b) && CanonicalSegment(c)
      <==> WholeBytes(a) && WholeBytes(b) && WholeBytes(c)
  {
    hide CanonicalSegment, WholeBytes;
    SegmentRules(a);
    SegmentRules(b);
    SegmentRules(c);
  }

  lemma ValidIsCompact(s: string)
    requires ValidTicket(s)
    ensures CompactTicket(s)
  {
    hide CanonicalSegment, WholeBytes, Joined;
    var i, j :| 0 <= i < j < |s| && s[i] == '.' && s[j] == '.'
      && CanonicalSegment(s[..i]) && CanonicalSegment(s[i + 1..j]) && CanonicalSegment(s[j + 1..]);
    TicketParts(s, i, j);
    ThreeSegments(s[..i], s[i + 1..j], s[j + 1..]);
  }

  lemma CompactIsValid(s: string)
    requires CompactTicket(s)
    ensures ValidTicket(s)
  {
    hide CanonicalSegment, WholeBytes, Joined;
    var a, b, c :| s == Joined(a, b, c) && WholeBytes(a) && WholeBytes(b) && WholeBytes(c);
    JoinedParts(a, b, c);
    ThreeSegments(a, b, c);
  }

  lemma TicketRules(s: string)
    ensures ValidTicket(s) <==> CompactTicket(s)
  {
    hide CompactTicket, ValidTicket;
    if ValidTicket(s) {
      ValidIsCompact(s);
    }
    if CompactTicket(s) {
      CompactIsValid(s);
    }
  }

  predicate Revision(n: int, least: int) {
    least <= n <= 9_007_199_254_740_991
  }

  ghost predicate WellFormedTarget(t: Target) {
    && PlainId(t.sessionId) && PlainId(t.operationId) && PlainId(t.activationId)
    && CompactTicket(t.activationToken)
    && PlainDigest(t.bindingDigest)
    && Revision(t.credentialRevision, 1) && Revision(t.leaseEpoch, 1)
    && Revision(t.sourceCredentialRevision, 0) && Revision(t.revocationEpoch, 0)
    && t.sourceCredentialRevision < t.credentialRevision
  }

  /** The lease is the one asked for, and lasts more than 0 and at most 30 seconds. */
  ghost predicate WellFormedResult(t: Target, r: RenewalResult) {
    && r.requestReference == RequestReference(t.sessionId, t.activationId)
    && PlainDigest(r.requestHash)
    && PlainId(r.lease.executorId)
    && r.lease.activationId == t.activationId && r.lease.operationId == t.operationId
    && r.lease.credentialRevision == t.credentialRevision && r.lease.leaseEpoch == t.leaseEpoch
    && r.lease.sourceCredentialRevision == t.sourceCredentialRevision
    && r.lease.revocationEpoch == t.revocationEpoch
    && 0 < r.lease.leaseExpiresAt / 1_000_000 - r.lease.renewedAt / 1_000_000 <= 30_000
  }

  ghost predicate WellFormedRequest(t: Target, r: RenewalResult) {
    WellFormedTarget(t) && WellFormedResult(t, r)
  }

  lemma TargetRules(t: Target)
    ensures ValidTarget(t) <==> WellFormedTarget(t)
  {
    hide ValidTicket, CompactTicket, SafeId, PlainId, IsDigest, PlainDigest;
    TicketRules(t.activationToken);
    IdRules(t.sessionId);
    IdRules(t.operationId);
    IdRules(t.activationId);
    IdRules(t.bindingDigest);
  }

  lemma ResultRules(t: Target, r: RenewalResult)
    ensures ValidResult(r, t) <==> WellFormedResult(t, r)
  {
    hide SafeId, PlainId, IsDigest, PlainDigest;
    IdRules(r.requestHash);
    IdRules(r.lease.executorId);
  }

  // ---- What is written ----

  /** The record says of the renewal what its target, its lease and its result say. */
  ghost predicate RecordsRenewal(d: Data, t: Target, r: RenewalResult) {
    && d.semanticKey == SemanticKey(t.sessionId, t.activationId)
    && d.sessionId == t.sessionId && d.operationId == t.operationId && d.activationId == t.activationId
    && d.credentialRevision == t.credentialRevision && d.leaseEpoch == t.leaseEpoch
    && d.sourceCredentialRevision == t.sourceCredentialRevision && d.revocationEpoch == t.revocationEpoch
    && d.bindingDigest == t.bindingDigest && d.tokenHash == TokenHash(t.activationToken)
    && d.executorId == r.lease.executorId
    && d.renewedAt == r.lease.renewedAt && d.leaseExpiresAt == r.lease.leaseExpiresAt
    && d.replayed == r.lease.replayed && d.recovered == r.recovered
    && d.requestReference == r.requestReference && d.requestHash == r.requestHash
  }

  lemma DataRules(t: Target, r: RenewalResult)
    ensures RenewalData(t, r).Some? <==> WellFormedRequest(t, r)
    ensures RenewalData(t, r).Some? ==> RecordsRenewal(RenewalData(t, r).value, t, r)
  {
    hide ValidTarget, ValidResult, WellFormedTarget, WellFormedResult;
    TargetRules(t);
    ResultRules(t, r);
  }

  /** The whole record that a renewal writes on top of `current`. */
  ghost predicate RenewedRecord(current: Option<Record>, next: Record, t: Target, r: RenewalResult, now: int) {
    && RecordsRenewal(next.data, t, r)
    && next.version == 1 && next.removedAt == None && next.updatedAt == now
    && (next.status == Fresh <==> !r.recovered && !r.lease.replayed)
    && (next.status == RecoveryRequired <==> r.recovered || r.lease.replayed)
    && if current.Some? then next.generation == current.value.generation + 1 && next.createdAt == current.value.createdAt
       else next.generation == 1 && next.createdAt == now
  }

  // ---- When a renewal is accepted ----

  /** No other live activation has this executor or this operation. */
  ghost predicate Uncontested(heads: Heads, t: Target, r: RenewalResult) {
    forall a <- heads | a != t.activationId && heads[a].status != Removed ::
      heads[a].data.executorId != r.lease.executorId && heads[a].data.operationId != t.operationId
  }

  /** The head was made for this very session, executor, operation, revisions, binding and token. */
  predicate SameLease(h: Data, t: Target, r: RenewalResult) {
    && h.sessionId == t.sessionId && h.executorId == r.lease.executorId && h.operationId == t.operationId
    && h.credentialRevision == t.credentialRevision && h.leaseEpoch == t.leaseEpoch
    && h.sourceCredentialRevision == t.sourceCredentialRevision && h.revocationEpoch == t.revocationEpoch
    && h.bindingDigest == t.bindingDigest && h.tokenHash == TokenHash(t.activationToken)
  }

  /** The head already holds exactly this answer. */
  predicate Repeats(h: Data, r: RenewalResult) {
    && h.requestHash == r.requestHash && h.recovered == r.recovered
    && h.renewedAt == r.lease.renewedAt && h.leaseExpiresAt == r.lease.leaseExpiresAt
    && h.replayed == r.lease.replayed
  }

  /** The same answer, which now turns out to be recovered; or a later one that expires no earlier. */
  predicate MovesOn(h: Data, r: RenewalResult) {
    if h.requestHash == r.requestHash then
      && !h.recovered && r.recovered
      && h.renewedAt == r.lease.renewedAt && h.leaseExpiresAt == r.lease.leaseExpiresAt
      && h.replayed == r.lease.replayed
    else
      && h.renewedAt / 1_000_000 < r.lease.renewedAt / 1_000_000
      && h.leaseExpiresAt / 1_000_000 <= r.lease.leaseExpiresAt / 1_000_000
  }

  /** Everything but the clock and the generation count allows a new record. */
  ghost predicate MayWrite(heads: Heads, t: Target, r: RenewalResult) {
    && WellFormedRequest(t, r) && Uncontested(heads, t, r)
    && (t.activationId in heads ==>
          var h := heads[t.activationId];
          h.status != Removed && SameLease(h.data, t, r) && MovesOn(h.data, r))
  }

  ghost predicate MayKeep(heads: Heads, t: Target, r: RenewalResult) {
    && WellFormedRequest(t, r) && Uncontested(heads, t, r)
    && t.activationId in heads
    && var h := heads[t.activationId];
       h.status != Removed && SameLease(h.data, t, r) && Repeats(h.data, r)
  }

  /** The clock can be read and has not gone back, and there is a next generation. */
  predicate ClockAllows(heads: Heads, a: string, now: Option<int>) {
    now.Some? &&
    (a in heads ==> heads[a].updatedAt <= now.value && heads[a].generation < 9_007_199_254_740_991)
  }

  lemma CompetesRules(heads: Heads, candidate: Data, t: Target, r: RenewalResult)
    requires RecordsRenewal(candidate, t, r)
    ensures Competes(heads, candidate) <==> !Uncontested(heads, t, r)
  {
  }

  lemma FirstRecordRules(candidate: Data, t: Target, r: RenewalResult, now: Option<int>)
    requires ValidData(candidate) && RecordsRenewal(candidate, t, r)
    ensures FinishRenewal(None, candidate, now) == (if now.None? then Refuse(Unsafe)
              else Write(Renewed(None, candidate, now.value)))
    ensures now.Some? ==> RenewedRecord(None, Renewed(None, candidate, now.value), t, r, now.value)
  {
    hide ValidData;
  }

  lemma NextRecordRules(current: Record, candidate: Data, t: Target, r: RenewalResult, now: Option<int>)
    requires ValidRecord(current) && Active(current) && current.data.activationId == t.activationId
    requires ValidData(candidate) && RecordsRenewal(candidate, t, r)
    ensures var plan := PersistPlan(Some(current), false, candidate, now);
      var may := SameLease(current.data, t, r) && MovesOn(current.data, r);
      && (plan == Keep <==> SameLease(current.data, t, r) && Repeats(current.data, r))
      && (plan == Refuse(Unsafe) <==> may && now.None?)
      && (plan.Write? <==> (may && now.Some? && current.updatedAt <= now.value
                            && current.generation < 9_007_199_254_740_991))
      && (plan.Write? ==> RenewedRecord(Some(current), plan.next, t, r, now.value))
      && (plan.Refuse? ==> plan.reason == Conflict || plan.reason == Unsafe)
  {
    if now.Some? {
      RenewalGuardsAreSuccessorRule(current, candidate, now.value);
    }
    hide ValidLeaseWindow, SafeId, IsDigest;
  }

  /**
   * A renewal, completely: what it answers for every head and clock, when it writes, and what it
   * writes. Nothing here speaks of the record it builds on the way.
   */
  lemma RenewalRule(heads: Heads, t: Target, r: RenewalResult, now: Option<int>)
    requires WellFormed(heads)
    ensures var op, a := Persist(t, r, now), t.activationId;
      var plan := PlanOf(heads, op);
      && (plan == Keep <==> MayKeep(heads, t, r))
      && (plan.Write? <==> MayWrite(heads, t, r) && ClockAllows(heads, a, now))
      && (plan.Write? ==> RenewedRecord(Lookup(heads, a), plan.next, t, r, now.value))
      && (OutcomeOf(heads, op) == Done <==> MayKeep(heads, t, r) || (MayWrite(heads, t, r) && ClockAllows(heads, a, now)))
      && (OutcomeOf(heads, op) == Unsafe <==> !WellFormedRequest(t, r) || (MayWrite(heads, t, r) && now.None?))
      && (OutcomeOf(heads, op) == Done || OutcomeOf(heads, op) == Unsafe || OutcomeOf(heads, op) == Conflict)
  {
    hide WellFormedRequest, RenewalData, Competes, Uncontested, ValidRecord, FinishRenewal, CompareRequest, Exclusive;
    hide RecordsRenewal, SameLease, MovesOn, Repeats, RenewedRecord;
    DataRules(t, r);
    if WellFormedRequest(t, r) {
      var candidate := RenewalData(t, r).value;
      CompetesRules(heads, candidate, t, r);
      if t.activationId !in heads {
        FirstRecordRules(candidate, t, r, now);
      } else if Active(heads[t.activationId]) {
        NextRecordRules(heads[t.activationId], candidate, t, r, now);
      }
    }
  }

  /** Whenever a renewal is answered, the head says just what it said, written now or found. */
  lemma DoneIsRecorded(heads: Heads, t: Target, r: RenewalResult, now: Option<int>)
    requires WellFormed(heads) && OutcomeOf(heads, Persist(t, r, now)) == Done
    ensures var after := Next(heads, Persist(t, r, now));
      && t.activationId in after
      && RecordsRenewal(after[t.activationId].data, t, r)
      && (after[t.activationId].status == Fresh <==> !r.recovered && !r.lease.replayed)
  {
    hide PlanOf, WellFormedRequest, ValidRecord, Uncontested, Exclusive;
    RenewalRule(heads, t, r, now);
    if MayKeep(heads, t, r) {
      RecordRules(heads[t.activationId]);
      WellFormedIsNamed(t, r);
    }
  }

  lemma WellFormedIsNamed(t: Target, r: RenewalResult)
    requires WellFormedRequest(t, r)
    ensures r.requestReference == RequestReference(t.sessionId, t.activationId)
  {
  }

  // ---- Removal and freshness ----

  /** A whole record: its own keys derive from its session and activation, its status from its data. */
  predicate ProperRecord(r: Record) {
    var d := r.data;
    && r.version == 1 && Revision(r.generation, 1) && r.createdAt <= r.updatedAt
    && PlainId(d.sessionId) && PlainId(d.executorId) && PlainId(d.operationId) && PlainId(d.activationId)
    && PlainDigest(d.bindingDigest) && PlainDigest(d.requestHash) && d.tokenHash.TokenHash?
    && d.semanticKey == SemanticKey(d.sessionId, d.activationId)
    && d.requestReference == RequestReference(d.sessionId, d.activationId)
    && Revision(d.credentialRevision, 1) && Revision(d.leaseEpoch, 1)
    && Revision(d.sourceCredentialRevision, 0) && Revision(d.revocationEpoch, 0)
    && d.sourceCredentialRevision < d.credentialRevision
    && 0 < d.leaseExpiresAt / 1_000_000 - d.renewedAt / 1_000_000 <= 30_000
    && match r.status
       case Fresh => !d.recovered && !d.replayed && r.removedAt == None
       case RecoveryRequired => (d.recovered || d.replayed) && r.removedAt == None
       case Removed => r.generation > 1 && r.removedAt == Some(r.updatedAt)
  }

  lemma RecordRules(r: Record)
    ensures ValidRecord(r) <==> ProperRecord(r)
  {
    hide SafeId, PlainId, IsDigest, PlainDigest;
    IdRules(r.data.sessionId);
    IdRules(r.data.executorId);
    IdRules(r.data.operationId);
    IdRules(r.data.activationId);
    IdRules(r.data.bindingDigest);
    IdRules(r.data.requestHash);
  }

  /** The exact live head becomes a tombstone that keeps everything else. */
  predicate TombstoneOf(h: Record, next: Record, now: int) {
    && next.status == Removed && next.generation == h.generation + 1
    && next.updatedAt == now && next.removedAt == Some(now)
    && next.createdAt == h.createdAt && next.data == h.data && next.version == h.version
  }

  /** The head is a tombstone of this very record. */
  predicate IsTombstoneOf(h: Record, expected: Record) {
    && h.status == Removed && h.generation == expected.generation + 1 && h.data == expected.data
    && h.createdAt == expected.createdAt && expected.updatedAt <= h.updatedAt
  }

  lemma RemovalRule(heads: Heads, expected: Record, now: Option<int>)
    requires WellFormed(heads)
    ensures var op, a := FenceHistory.Remove(expected, now), expected.data.activationId;
      var plan, proper := PlanOf(heads, op), ProperRecord(expected) && expected.status != Removed;
      var exact := proper && a in heads && heads[a] == expected;
      && (plan == Keep <==> proper && a in heads && IsTombstoneOf(heads[a], expected))
      && (plan.Write? <==> (exact && now.Some? && expected.updatedAt <= now.value
                            && expected.generation < 9_007_199_254_740_991))
      && (plan.Write? ==> TombstoneOf(expected, plan.next, now.value))
      && (plan == Refuse(Unsafe) <==> !proper || (exact && now.None?))
      && (plan.Refuse? ==> plan.reason == Conflict || plan.reason == Unsafe)
  {
    hide ValidData, Exclusive, PlainId, PlainDigest;
    RecordRules(expected);
  }

  /** Only the exact live head, fresh and unexpired to the millisecond, passes. */
  lemma FreshRule(heads: Heads, expected: Record, now: Option<int>)
    requires WellFormed(heads)
    ensures var a, outcome := expected.data.activationId, FreshOutcome(heads, expected, now);
      var proper := ProperRecord(expected) && expected.status != Removed;
      && (outcome == Done <==>
            proper && now.Some? && a in heads && heads[a] == expected
            && !expected.data.recovered && !expected.data.replayed
            && now.value < expected.data.leaseExpiresAt / 1_000_000)
      && (outcome == Unsafe <==> !proper || now.None?)
      && (outcome == Done || outcome == Unsafe || outcome == Conflict)
  {
    hide ValidData, Exclusive, PlainId, PlainDigest;
    RecordRules(expected);
  }
}
