/**
 * The authorization event broadcaster: high-water marks, pending deliveries and what every
 * session's subscriber sees. Operations run one at a time in the order they were queued.
 */
module EventBroadcaster {
  import opened Basics

  datatype SessionStatus =
    | Starting | WaitingUser | Verifying | Succeeded | Failed | Cancelled | Expired | Interrupted | Superseded

  datatype Snapshot = Snapshot(
    sessionId: string,
    executorId: string,
    sequence: int,
    status: SessionStatus,
    canReopen: bool,
    canCancel: bool,
    failureCode: Option<string>)

  /** The immutable envelope; `id` and `occurredAt` are fresh for each one. */
  datatype Event = Event(id: string, occurredAt: int, payload: Snapshot)

  predicate ValidCanFlags(s: Snapshot) {
    if s.status.WaitingUser? then s.canReopen && s.canCancel
    else if s.status.Starting? || s.status.Verifying? then !s.canReopen && s.canCancel
    else !s.canReopen && !s.canCancel
  }

  /** The failure-code alphabet /^[a-z][a-z0-9_]{0,95}$/. */
  predicate SafeFailureCode(s: string) {
    && 1 <= |s| <= 96 && 'a' <= s[0] <= 'z'
    && forall c <- s[1..] :: 'a' <= c <= 'z' || '0' <= c <= '9' || c == '_'
  }

  /** What captureSnapshot lets through. */
  predicate ValidSnapshot(s: Snapshot) {
    && SafeId(s.sessionId) && SafeId(s.executorId)
    && SafeInteger(s.sequence) && s.sequence > 0
    && ValidCanFlags(s)
    && (s.failureCode.Some? ==> SafeFailureCode(s.failureCode.value))
  }

  /** What a snapshot must be to get through, flag by flag. */
  predicate Publishable(s: Snapshot) {
    && PlainId(s.sessionId) && PlainId(s.executorId) && 1 <= s.sequence <= 9_007_199_254_740_991
    && (s.canReopen <==> s.status == WaitingUser)
    && (s.canCancel <==> s.status == Starting || s.status == WaitingUser || s.status == Verifying)
    && (s.failureCode.Some? ==> PlainFailureCode(s.failureCode.value))
  }

  predicate PlainFailureCode(s: string) {
    && 0 < |s| <= 96 && s[0] != '_' && !('0' <= s[0] <= '9')
    && forall c <- s :: 'a' <= c <= 'z' || '0' <= c <= '9' || c == '_'
  }

  lemma SnapshotRules(s: Snapshot)
    ensures ValidSnapshot(s) <==> Publishable(s)
  {
    if s.failureCode.Some? {
      FailureCodeRules(s.failureCode.value);
    }
  }

  lemma FailureCodeRules(s: string)
    ensures SafeFailureCode(s) <==> PlainFailureCode(s)
  {
    if s != "" {
      assert s[0] in s && s == [s[0]] + s[1..];
      assert forall c <- s[1..] :: c in s;
      assert forall c <- s :: c == s[0] || c in s[1..];
    }
  }

  // ---- The law of the log ----

  datatype Entry =
    | Restored(payload: Snapshot)
    | Attempted(event: Event, delivered: bool)

  /** One session as the log tells it: its high-water mark and the delivery that failed last. */
  datatype Track = Track(high: Option<Snapshot>, pending: Option<Event>)

  function SessionOf(e: Entry): string {
    match e
    case Restored(payload) => payload.sessionId
    case Attempted(event, _) => event.payload.sessionId
  }

  function Tell(t: Track, e: Entry): Track {
    match e
    case Restored(payload) => t.(high := Some(payload))
    case Attempted(event, delivered) =>
      if delivered then Track(Some(event.payload), None) else t.(pending := Some(event))
  }

  function Next(t: Track, e: Entry, session: string): Track {
    if SessionOf(e) == session then Tell(t, e) else t
  }

  function Replay(log: seq<Entry>, session: string): Track {
    if log == [] then Track(None, None)
    else Next(Replay(log[..|log| - 1], session), log[|log| - 1], session)
  }

  predicate Above(sequence: int, high: Option<Snapshot>) {
    high.Some? ==> high.value.sequence < sequence
  }

  predicate Legal(t: Track, e: Entry) {
    match e
    case Restored(payload) => t.pending.None? && Above(payload.sequence, t.high)
    case Attempted(event, _) =>
      Above(event.payload.sequence, t.high) && (t.pending.Some? ==> event == t.pending.value)
  }

  ghost predicate Lawful(log: seq<Entry>) {
    forall i :: 0 <= i < |log| ==> Legal(Replay(log[..i], SessionOf(log[i])), log[i])
  }

  lemma LawfulAppend(log: seq<Entry>, e: Entry)
    requires Lawful(log) && Legal(Replay(log, SessionOf(e)), e)
    ensures Lawful(log + [e])
    ensures forall session :: Replay(log + [e], session) == Next(Replay(log, session), e, session)
  {
    hide Legal;
    var longer := log + [e];
    assert longer[..|log|] == log;
    forall i | 0 <= i < |longer| ensures Legal(Replay(longer[..i], SessionOf(longer[i])), longer[i]) {
      assert i < |log| ==> longer[..i] == log[..i];
    }
  }

  lemma ReplayStep(log: seq<Entry>, i: int, session: string)
    requires 0 <= i < |log|
    ensures Replay(log[..i + 1], session) == Next(Replay(log[..i], session), log[i], session)
  {
    assert log[..i + 1][..i] == log[..i];
  }

  /** No entry of the session lies at positions i, ..., j - 1 that delivers. */
  predicate NoDelivery(log: seq<Entry>, session: string, i: int, j: int) {
    forall k :: i <= k < j && 0 <= k < |log| && SessionOf(log[k]) == session ==>
      !(log[k].Attempted? && log[k].delivered)
  }

  /** A session's high-water mark never decreases, and a pending delivery lies above it. */
  lemma {:induction false} HighWaterRises(log: seq<Entry>, session: string, i: int, j: int)
    requires Lawful(log) && 0 <= i <= j <= |log|
    ensures var before, after := Replay(log[..i], session), Replay(log[..j], session);
      before.high.Some? ==> after.high.Some? && before.high.value.sequence <= after.high.value.sequence
    decreases j - i
  {
    hide Replay;
    if i < j {
      HighWaterRises(log, session, i, j - 1);
      ReplayStep(log, j - 1, session);
      LawfulAt(log, j - 1);
    }
  }

  lemma LawfulAt(log: seq<Entry>, i: int)
    requires Lawful(log) && 0 <= i < |log|
    ensures Legal(Replay(log[..i], SessionOf(log[i])), log[i])
  {
  }

  /**
   * Strictly increasing: anything sent to a session lies above everything delivered to it or
   * restored for it before.
   */
  lemma DeliveriesIncrease(log: seq<Entry>, i: int, j: int)
    requires Lawful(log) && 0 <= i < j < |log| && SessionOf(log[i]) == SessionOf(log[j])
    requires log[j].Attempted? && (log[i].Restored? || log[i].delivered)
    ensures (if log[i].Restored? then log[i].payload.sequence else log[i].event.payload.sequence)
      < log[j].event.payload.sequence
  {
    hide Replay;
    ReplayStep(log, i, SessionOf(log[i]));
    HighWaterRises(log, SessionOf(log[i]), i + 1, j);
    LawfulAt(log, j);
  }

  lemma {:induction false} PendingStays(log: seq<Entry>, session: string, i: int, j: int)
    requires Lawful(log) && 0 <= i <= j <= |log| && NoDelivery(log, session, i, j)
    requires Replay(log[..i], session).pending.Some?
    ensures Replay(log[..j], session) == Replay(log[..i], session)
    decreases j - i
  {
    hide Replay;
    if i < j {
      PendingStays(log, session, i, j - 1);
      ReplayStep(log, j - 1, session);
      LawfulAt(log, j - 1);
    }
  }

  /**
   * After a failed delivery the session is blocked: until that envelope is delivered, nothing
   * is restored for it and nothing but the identical envelope is sent to it.
   */
  lemma FailureBlocks(log: seq<Entry>, i: int, j: int)
    requires Lawful(log) && 0 <= i < j < |log| && SessionOf(log[i]) == SessionOf(log[j])
    requires log[i].Attempted? && !log[i].delivered && NoDelivery(log, SessionOf(log[i]), i, j)
    ensures log[j].Attempted? && log[j].event == log[i].event
  {
    hide Replay;
    ReplayStep(log, i, SessionOf(log[i]));
    PendingStays(log, SessionOf(log[i]), i + 1, j);
    LawfulAt(log, j);
  }

  /** Two sends to one session with the same sequence carry the same envelope. */
  lemma SameSequenceSameEnvelope(log: seq<Entry>, i: int, j: int)
    requires Lawful(log) && 0 <= i < j < |log| && SessionOf(log[i]) == SessionOf(log[j])
    requires log[i].Attempted? && log[j].Attempted?
    requires log[i].event.payload.sequence == log[j].event.payload.sequence
    ensures log[i].event == log[j].event
  {
    hide Replay, Lawful, Legal, NoDelivery;
    if log[i].delivered {
      DeliveriesIncrease(log, i, j);
    } else if NoDelivery(log, SessionOf(log[i]), i, j) {
      FailureBlocks(log, i, j);
    } else {
      var k := FirstDelivery(log, SessionOf(log[i]), i, j);
      FailureBlocks(log, i, k);
      DeliveriesIncrease(log, k, j);
    }
  }

  lemma {:induction false} FirstDelivery(log: seq<Entry>, session: string, i: int, j: int) returns (k: int)
    requires 0 <= i && j <= |log| && !NoDelivery(log, session, i, j)
    ensures i <= k < j && SessionOf(log[k]) == session && log[k].Attempted? && log[k].delivered
    ensures NoDelivery(log, session, i, k)
    decreases j - i
  {
    if SessionOf(log[i]) == session && log[i].Attempted? && log[i].delivered {
      k := i;
    } else {
      k := FirstDelivery(log, session, i + 1, j);
    }
  }

  // ---- The broadcaster ----

  datatype Reply = Emitted(event: Event) | Duplicate | Conflict | SinkFailed | Invalid

  class EventBroadcaster {
    var highWater: map<string, Snapshot>
    var pending: map<string, Event>
    ghost var log: seq<Entry>

    ghost predicate Valid()
      reads this
    {
      && Lawful(log)
      && (forall s <- highWater :: highWater[s].sessionId == s)
      && (forall s <- pending :: pending[s].payload.sessionId == s)
      && forall session :: Replay(log, session) == Track(
           if session in highWater then Some(highWater[session]) else None,
           if session in pending then Some(pending[session]) else None)
    }

    constructor ()
      ensures Valid() && log == []
    {
      highWater, pending, log := map[], map[], [];
    }

    ghost method Note(e: Entry)
      requires Lawful(log) && Legal(Replay(log, SessionOf(e)), e)
      modifies this`log
      ensures log == old(log) + [e] && Lawful(log)
      ensures forall session :: Replay(log, session) == Next(Replay(old(log), session), e, session)
    {
      LawfulAppend(log, e);
      log := log + [e];
    }

    /** Adopts a durable snapshot as the session's mark; false is a conflict or invalid input. */
    method RestoreHighWater(payload: Snapshot) returns (ok: bool)
      requires Valid()
      modifies this
      ensures Valid() && pending == old(pending)
      ensures var s := payload.sessionId;
        var current := if s in old(highWater) then Some(old(highWater)[s]) else None;
        && (ok <==> Publishable(payload)
                    && (current == Some(payload) || (s !in pending && Above(payload.sequence, current))))
        && highWater == (if ok then old(highWater)[s := payload] else old(highWater))
        && log == old(log) + (if ok && current != Some(payload) then [Restored(payload)] else [])
    {
      hide Replay, Lawful, ValidSnapshot, Publishable;
      SnapshotRules(payload);
      if !ValidSnapshot(payload) {
        return false;
      }
      var s := payload.sessionId;
      var known := s in highWater;
      if s in pending {
        ok := known && highWater[s] == payload;
        return;
      }
      if known {
        if payload.sequence < highWater[s].sequence {
          return false;
        }
        if payload.sequence == highWater[s].sequence {
          ok := highWater[s] == payload;
          return;
        }
      }
      Note(Restored(payload));
      highWater := highWater[s := payload];
      ok := true;
    }

    /** The delivery that failed last for this session, if it is still waiting to be repeated. */
    function PendingFor(session: string): Option<Event>
      reads this
    {
      if session in pending then Some(pending[session]) else None
    }

    /** Above whatever was delivered to or restored for the session. */
    predicate IsNewer(payload: Snapshot)
      reads this
    {
      payload.sessionId in highWater ==> highWater[payload.sessionId].sequence < payload.sequence
    }

    predicate IsDelivered(payload: Snapshot)
      reads this
    {
      payload.sessionId in highWater && highWater[payload.sessionId] == payload
    }

    /**
     * Sends a snapshot once. `candidate` is the envelope it would get if it needs a new one (none
     * when no id or time can be made), and `sinkAccepts` is how the sink takes what it is handed.
     */
    method Broadcast(payload: Snapshot, candidate: Option<Event>, sinkAccepts: bool) returns (reply: Reply)
      requires Valid()
      requires candidate.Some? ==> candidate.value.payload == payload
      modifies this
      ensures Valid()
      ensures var s, waiting := payload.sessionId, old(PendingFor(payload.sessionId));
        var valid := Publishable(payload);
        var sends := valid && old(IsNewer(payload))
          && (if waiting.Some? then waiting.value.payload == payload else candidate.Some?);
        var event := if waiting.Some? then waiting else candidate;
        && (reply.Duplicate? <==> valid && old(IsDelivered(payload)))
        && (reply.Conflict? <==>
              (valid && !old(IsDelivered(payload))
               && (!old(IsNewer(payload)) || (waiting.Some? && waiting.value.payload != payload))))
        && (reply.Invalid? <==> !valid || (old(IsNewer(payload)) && waiting.None? && candidate.None?))
        && (reply.Emitted? || reply.SinkFailed? <==> sends)
        && (reply.Emitted? <==> sends && sinkAccepts)
        && (reply.Emitted? ==> reply.event == event.value)
        && log == old(log) + (if sends then [Attempted(event.value, sinkAccepts)] else [])
        && highWater == (if sends && sinkAccepts then old(highWater)[s := payload] else old(highWater))
        && pending == (if !sends then old(pending) else if sinkAccepts then old(pending) - {s}
                       else old(pending)[s := event.value])
    {
      hide Replay, Lawful, ValidSnapshot, Publishable;
      SnapshotRules(payload);
      if !ValidSnapshot(payload) {
        return Invalid;
      }
      var s := payload.sessionId;
      if s in highWater {
        if payload.sequence < highWater[s].sequence {
          return Conflict;
        }
        if payload.sequence == highWater[s].sequence {
          return if highWater[s] == payload then Duplicate else Conflict;
        }
      }
      var event: Event;
      if s in pending {
        if pending[s].payload != payload {
          return Conflict;
        }
        event := pending[s];
      } else if candidate.None? {
        return Invalid;
      } else {
        event := candidate.value;
      }
      reply := Send(event, sinkAccepts);
    }

    /** Hands the envelope to the sink; a failure makes it the session's pending delivery. */
    method Send(event: Event, sinkAccepts: bool) returns (reply: Reply)
      requires Valid() && Legal(Replay(log, event.payload.sessionId), Attempted(event, true))
      modifies this
      ensures Valid()
      ensures reply == if sinkAccepts then Emitted(event) else SinkFailed
      ensures log == old(log) + [Attempted(event, sinkAccepts)]
      ensures var s := event.payload.sessionId;
        if sinkAccepts then highWater == old(highWater)[s := event.payload] && pending == old(pending) - {s}
        else highWater == old(highWater) && pending == old(pending)[s := event]
    {
      hide Replay, Lawful;
      var s := event.payload.sessionId;
      Note(Attempted(event, sinkAccepts));
      if !sinkAccepts {
        pending := pending[s := event];
        return SinkFailed;
      }
      pending := pending - {s};
      highWater := highWater[s := event.payload];
      return Emitted(event);
    }
  }
}
