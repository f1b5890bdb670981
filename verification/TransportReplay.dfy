/**
 * The journalled transport for one request reference, step by step. Module DeviceRequestLane
 * admits one submission at a time, over all references; at every await other code may cancel or complete the request, and
 * the awaited work may fail before or after taking effect, which is also where a crash stops.
 */
module TransportReplay {
  import opened Basics
  import opened ReplayLog

  datatype JournalRecord = JournalRecord(request: Request, response: Option<Response>)

  datatype Loaded = Loaded(record: Option<JournalRecord>) | Unreadable

  /** How a submission ends. A durable rejection is thrown, but it too is derived from the record. */
  datatype End =
    | Delivered(answer: Answer, recovered: bool, requestHash: string)
    | Cancelled
    | HookFailed
    | Failed

  predicate Unanswered(journal: Option<JournalRecord>) {
    journal.Some? && journal.value.response.None?
  }

  class Transport {
    var journal: Option<JournalRecord>
    var cancellationEpoch: nat
    ghost var log: seq<Item>
    /** How often awaited work failed so far. */
    ghost var faults: nat

    ghost function Told(): Told
      reads this`log
    {
      Replay(log)
    }

    /** The log is lawful and tells exactly what the journal holds. */
    ghost predicate Valid()
      reads this`log, this`journal, this`cancellationEpoch
    {
      && Lawful(log)
      && Agrees(journal, Told())
      && cancellationEpoch == Told().epoch
    }

    constructor ()
      ensures Valid() && log == [] && journal == None
    {
      journal, cancellationEpoch, log, faults := None, 0, [], 0;
    }

    ghost method Note(item: Item)
      requires Lawful(log) && Legal(Told(), item)
      modifies this`log
      ensures log == old(log) + [item]
      ensures Lawful(log) && Told() == Tell(old(Told()), item)
    {
      LawfulAppend(log, item);
      log := log + [item];
    }

    /** What other code may do while a submission waits; false when the awaited work fails. */
    method Await() returns (ok: bool)
      requires Valid()
      modifies this`journal, this`cancellationEpoch, this`log, this`faults
      ensures old(cancellationEpoch) <= cancellationEpoch
      ensures Valid() && Waited(old(Told()), Told()) && old(log) <= log && OnlyOthers(|old(log)|, log)
      ensures journal == old(journal) || (journal.None? && !Unanswered(old(journal)))
      ensures faults == old(faults) + if ok then 0 else 1
    {
      hide Lawful, Replay, Legal;
      ghost var failedBefore := faults;
      var cancels: bool, completes: bool, hash: string := *, *, *;
      if cancels {
        Cancel();
      }
      if completes {
        var completed := CompleteRequest(hash);
      }
      ok := *;
      faults := failedBefore + if ok then 0 else 1;
    }

    method Cancel()
      requires Valid()
      modifies this`cancellationEpoch, this`log
      ensures Valid() && log == old(log) + [CancelledAll]
      ensures Told() == old(Told()).(epoch := old(Told()).epoch + 1)
    {
      Note(CancelledAll);
      cancellationEpoch := cancellationEpoch + 1;
    }

    /** Journal.complete: exactly an answered request with the expected hash is dropped, or it fails. */
    method CompleteRequest(expectedHash: string) returns (completed: bool)
      requires Valid()
      modifies this`journal, this`log, this`faults
      ensures Valid() && Waited(old(Told()), Told())
      ensures log == old(log) + (if journal != old(journal) then [Completed] else [])
      ensures var matching := old(journal).Some? && old(journal).value.response.Some?
                && old(journal).value.request.requestHash == expectedHash;
        && (completed ==> matching && journal == None)
        && (journal != old(journal) ==> matching && journal == None)
        && old(faults) <= faults && (matching && !completed ==> old(faults) < faults)
    {
      if journal.None? || journal.value.response.None? || journal.value.request.requestHash != expectedHash {
        return false;
      }
      var fails: bool := *;
      if fails {
        faults := faults + 1;
        return false;
      }
      Note(Completed);
      journal := None;
      completed := *;
      if !completed {
        faults := faults + 1;
      }
    }

    method Load() returns (loaded: Loaded)
      requires Valid()
      modifies this`journal, this`cancellationEpoch, this`log, this`faults
      ensures old(cancellationEpoch) <= cancellationEpoch
      ensures Valid() && Waited(old(Told()), Told()) && old(log) <= log && OnlyOthers(|old(log)|, log)
      ensures journal == old(journal) || (journal.None? && !Unanswered(old(journal)))
      ensures loaded.Loaded? ==> loaded.record == journal
      ensures old(faults) <= faults && (loaded.Unreadable? ==> old(faults) < faults)
    {
      var ok := Await();
      loaded := if ok then Loaded(journal) else Unreadable;
    }

    /** createOrLoad: journals the candidate unless another request is there. */
    method CreateOrLoad(candidate: Request) returns (loaded: Loaded)
      requires Valid() && Told().call.Some?
      requires Told().call.value.expectedHash.None? && Told().call.value.accepts(candidate)
      modifies this`journal, this`cancellationEpoch, this`log, this`faults
      ensures old(cancellationEpoch) <= cancellationEpoch
      ensures Valid() && SameCall(old(Told()), Told()) && old(log) <= log
      ensures loaded.Loaded? ==> loaded.record.Some? && loaded.record == journal
      ensures loaded.Loaded? ==> loaded.record.value.request == candidate
      ensures old(faults) <= faults
      ensures loaded.Unreadable? ==>
        old(faults) < faults || (old(journal).Some? && old(journal).value.request != candidate)
      ensures old(journal).None? && loaded.Loaded? ==>
        loaded.record == Some(JournalRecord(candidate, None)) && Since(|old(log)|, log, Created(candidate))
    {
      var ok := Await();
      if !ok {
        return Unreadable;
      }
      if journal.Some? {
        return if journal.value.request == candidate then Loaded(journal) else Unreadable;
      }
      ghost var asked := log;
      Note(Created(candidate));
      assert log[|asked|] == Created(candidate);
      journal := Some(JournalRecord(candidate, None));
      var returned: bool := *;
      if !returned {
        faults := faults + 1;
        return Unreadable;
      }
      return Loaded(journal);
    }

    method RecordResponse(expectedHash: string, response: Response) returns (loaded: Loaded)
      requires Valid() && Told().posted
      requires response.status == 200 || DeterministicRejection(response.status)
      modifies this`journal, this`cancellationEpoch, this`log, this`faults
      ensures old(cancellationEpoch) <= cancellationEpoch
      ensures Valid() && SameCall(old(Told()), Told()) && old(log) <= log
      ensures loaded.Loaded? ==> loaded.record == journal && Told().latest == Some(response)
      ensures loaded.Loaded? ==> Told().latestHash == Some(expectedHash)
      ensures loaded.Loaded? ==> journal.Some? && journal.value.response == Some(response)
      ensures loaded.Loaded? ==> journal.value.request.requestHash == expectedHash
      ensures loaded.Loaded? && old(Told()).response.None? ==> Since(|old(log)|, log, Recorded(response))
      ensures old(faults) <= faults
      ensures loaded.Unreadable? && Unanswered(old(journal)) && old(journal).value.request.requestHash == expectedHash ==>
        old(faults) < faults
    {
      var ok := Await();
      if !ok || journal.None? || journal.value.request.requestHash != expectedHash {
        return Unreadable;
      }
      if journal.value.response.Some? {
        return if journal.value.response == Some(response) then Loaded(journal) else Unreadable;
      }
      ghost var asked := log;
      Note(Recorded(response));
      assert log[|asked|] == Recorded(response);
      journal := Some(journal.value.(response := Some(response)));
      var returned: bool := *;
      if !returned {
        faults := faults + 1;
        return Unreadable;
      }
      return Loaded(journal);
    }

    /** No await of it failed, and nothing was cancelled since its caller saw the epoch. */
    ghost predicate Undisturbed(faultsBefore: nat, calledAt: nat)
      reads this
    {
      faults == faultsBefore && cancellationEpoch == calledAt
    }

    /**
     * submit, and with an expected hash submitRecoveredTrusted: one submission in the lane.
     * `calledAt` is the cancellation epoch its caller saw and `candidate` the request it would
     * sign. `found` is what the journal held and `reply` what the server answered, if asked.
     */
    method Submit(call: Call, calledAt: nat, candidate: Request)
      returns (end: End, ghost found: Option<JournalRecord>, ghost reply: Option<Response>)
      requires Valid() && calledAt <= cancellationEpoch
      modifies this`journal, this`cancellationEpoch, this`log, this`faults
      ensures old(cancellationEpoch) <= cancellationEpoch
      ensures Valid() && old(log) + [Entered(call, calledAt)] <= log && old(faults) <= faults
      ensures end.Delivered? ==> log != [] && log[|log| - 1] == Answered(end.answer, end.requestHash)
      ensures end.Delivered? ==> !Unanswered(journal)
      ensures end.Delivered? && !end.recovered ==> RecordedSince(|old(log)|, log)
      ensures end.HookFailed? ==> call.hooks && old(faults) < faults
      ensures Undisturbed(old(faults), calledAt) ==>
        && (found == old(journal) || (found.None? && old(journal).Some? && !Unanswered(old(journal))))
        && Served(call, candidate, found, reply, end, |old(log)|, log)
    {
      hide Lawful, Replay, RecordedSince, Derive, Says, Usable, Since, OnlyOthers;
      found, reply := None, None;
      Note(Entered(call, calledAt));
      if calledAt != cancellationEpoch {
        return Cancelled, found, reply;
      }
      var trusted := Await();
      if !trusted {
        return Failed, found, reply;
      }
      if calledAt != cancellationEpoch {
        return Cancelled, found, reply;
      }
      var prepared, recovered;
      ghost var started := log;
      prepared, recovered, found := Prepare(call, calledAt, candidate);
      if prepared.None? {
        return Failed, found, reply;
      }
      var record := prepared.value;
      if call.hooks {
        var resolves := OnPrepared(record);
        if !resolves {
          return HookFailed, found, reply;
        }
        if calledAt != cancellationEpoch {
          return Cancelled, found, reply;
        }
      }
      ghost var ready := log;
      end, reply := FinishPreparedRequest(record, call, calledAt);
      if record.response.None? {
        StandsAt(ready, Posted(record.request), log);
      }
      SinceEarlier(|old(log)|, |ready|, log);
      if end.Delivered? && !end.recovered {
        StillRecorded(|old(log)|, |ready|, log, []);
        assert log + [] == log;
      }
    }

    /**
     * Loads the journalled request, or signs and journals a new one; None when that fails.
     * `found` is what the journal held.
     */
    method Prepare(call: Call, calledAt: nat, candidate: Request)
      returns (prepared: Option<JournalRecord>, recovered: bool, ghost found: Option<JournalRecord>)
      requires Valid() && Told().call == Some(call) && Told().calledAt == calledAt
      modifies this`journal, this`cancellationEpoch, this`log, this`faults
      ensures old(cancellationEpoch) <= cancellationEpoch
      ensures Valid() && SameCall(old(Told()), Told()) && old(log) <= log && old(faults) <= faults
      ensures prepared.Some? ==> Holds(Told(), prepared.value) && Admits(call, prepared.value.request)
      ensures prepared.Some? ==> calledAt == cancellationEpoch
      ensures Undisturbed(old(faults), calledAt) ==>
        && (found == old(journal) || (found.None? && old(journal).Some? && !Unanswered(old(journal))))
        && (prepared.None? <==> Refuses(call, found, candidate))
      ensures prepared.Some? && found.Some? ==> prepared == found && recovered
      ensures prepared.Some? && found.None? ==>
        prepared == Some(JournalRecord(candidate, None)) && !recovered && Since(|old(log)|, log, Created(candidate))
    {
      hide Lawful, Replay, Legal, OnlyOthers, Since;
      found := None;
      var loaded := Load();
      if loaded.Unreadable? || calledAt != cancellationEpoch {
        return None, false, found;
      }
      found := loaded.record;
      recovered := loaded.record.Some?;
      if call.expectedHash.Some? {
        if !recovered || loaded.record.value.request.requestHash != call.expectedHash.value {
          return None, recovered, found;
        }
      }
      var identified := Await();
      if !identified || calledAt != cancellationEpoch {
        return None, recovered, found;
      }
      if recovered {
        prepared := if call.accepts(loaded.record.value.request) then loaded.record else None;
        return;
      }
      var signed := Await();
      if !signed || calledAt != cancellationEpoch || !call.accepts(candidate) {
        return None, recovered, found;
      }
      ghost var before := log;
      var created := CreateOrLoad(candidate);
      SinceEarlier(|old(log)|, |before|, log);
      if created.Unreadable? || calledAt != cancellationEpoch || !call.accepts(created.record.value.request) {
        return None, recovered, found;
      }
      prepared := created.record;
    }

    /** The onPrepared hook; it may reject. */
    method OnPrepared(record: JournalRecord) returns (resolves: bool)
      requires Valid() && Told().call.Some? && Told().call.value.hooks
      requires Holds(Told(), record)
      modifies this`journal, this`cancellationEpoch, this`log, this`faults
      ensures old(cancellationEpoch) <= cancellationEpoch
      ensures Valid() && Told().call == old(Told()).call && Told().calledAt == old(Told()).calledAt && old(log) <= log
      ensures Holds(Told(), record)
      ensures faults == old(faults) + if resolves then 0 else 1
      ensures resolves ==> Told().hooked == Some(record.request.requestHash)
      ensures resolves ==> log[|log| - 1] == HookResolved(record.request.requestHash, record.response.Some?)
    {
      resolves := Await();
      if resolves {
        Note(HookResolved(record.request.requestHash, record.response.Some?));
      }
    }

    /** Answers from the recorded response, or posts the journalled request and records the reply. */
    method FinishPreparedRequest(record: JournalRecord, call: Call, calledAt: nat)
      returns (end: End, ghost reply: Option<Response>)
      requires Valid() && Told().call == Some(call) && Told().calledAt == calledAt
      requires Holds(Told(), record) && Admits(call, record.request) && calledAt == cancellationEpoch
      requires call.hooks ==> Told().hooked == Some(record.request.requestHash)
      modifies this`journal, this`cancellationEpoch, this`log, this`faults
      ensures old(cancellationEpoch) <= cancellationEpoch
      ensures Valid() && old(log) <= log && old(faults) <= faults
      ensures !end.HookFailed? && (end.Cancelled? ==> cancellationEpoch != calledAt)
      ensures end.Delivered? ==> log != [] && log[|log| - 1] == Answered(end.answer, end.requestHash)
      ensures end.Delivered? ==> !Unanswered(journal)
      ensures end.Delivered? && !end.recovered ==> RecordedSince(|old(log)|, log)
      ensures record.response.Some? ==>
        && end.Delivered? && end.recovered && end.requestHash == record.request.requestHash
        && Says(end.answer, record.response.value, call.parse)
        && log == old(log) + [Answered(end.answer, end.requestHash)]
        && journal == old(journal) && Undisturbed(old(faults), calledAt)
      ensures record.response.None? ==> old(log) + [Posted(record.request)] <= log
      ensures record.response.None? && reply.None? ==> !end.Delivered? && !Undisturbed(old(faults), calledAt)
      ensures reply.Some? && !Usable(reply.value, call.parse) ==> end == Failed && !RecordedSince(|old(log)|, log)
      ensures reply.Some? && Usable(reply.value, call.parse) ==>
        && (!end.Delivered? ==> !Undisturbed(old(faults), calledAt))
        && (end.Delivered? ==>
              && Says(end.answer, reply.value, call.parse) && end.requestHash == record.request.requestHash
              && (end.recovered <==> call.expectedHash.Some?) && Since(|old(log)|, log, Recorded(reply.value)))
    {
      hide Lawful, Replay, RecordedSince, Derive, Says, Usable, OnlyOthers, Since;
      reply := None;
      if record.response.Some? {
        var answer := Derive(call.parse, record.response.value);
        DeriveSays(call.parse, record.response.value);
        Note(Answered(answer, record.request.requestHash));
        return Delivered(answer, true, record.request.requestHash), reply;
      }
      var exchanged := PostExact(record, calledAt);
      reply := exchanged;
      if exchanged.None? {
        return if calledAt != cancellationEpoch then Cancelled else Failed, reply;
      }
      var response := exchanged.value;
      UsableMeans(response, call.parse);
      NothingRecorded(|old(log)|, record.request, log);
      if response.status == 200 {
        if call.parse(response.text).None? {
          return Failed, reply;
        }
      } else if !DeterministicRejection(response.status) {
        return Failed, reply;
      }
      ghost var posted := log;
      var persisted := RecordResponse(record.request.requestHash, response);
      if persisted.Unreadable? {
        return Failed, reply;
      }
      if calledAt != cancellationEpoch {
        return Cancelled, reply;
      }
      var answer := Derive(call.parse, response);
      DeriveSays(call.parse, response);
      AnsweredAfterRecord(|old(log)|, |posted|, log, response, Answered(answer, record.request.requestHash));
      Note(Answered(answer, record.request.requestHash));
      end := Delivered(answer, call.expectedHash.Some?, record.request.requestHash);
    }

    /** postExact: the journalled bytes go out; None is a failed, timed-out or aborted exchange. */
    method PostExact(record: JournalRecord, calledAt: nat) returns (reply: Option<Response>)
      requires Valid() && Legal(Told(), Posted(record.request))
      modifies this`journal, this`cancellationEpoch, this`log, this`faults
      ensures old(cancellationEpoch) <= cancellationEpoch
      ensures Valid() && SameCall(old(Told()), Told())
      ensures old(log) + [Posted(record.request)] <= log && OnlyOthers(|old(log)| + 1, log)
      ensures old(faults) <= faults && (reply.Some? <==> Undisturbed(old(faults), calledAt))
      ensures Told().posted && Told().response.None? && Told().request == Some(record.request)
    {
      Note(Posted(record.request));
      var answered := Await();
      var response: Response := *;
      reply := if answered && calledAt == cancellationEpoch then Some(response) else None;
    }

    /** A crash forgets the lane and the epoch; the journal stays. */
    method Restart()
      requires Valid()
      modifies this`cancellationEpoch, this`log
      ensures Valid() && log == old(log) + [Restarted]
    {
      Note(Restarted);
      cancellationEpoch := 0;
    }
  }

  /** The item stands in the log at position `start` or later. */
  ghost predicate Since(start: nat, log: seq<Item>, item: Item) {
    exists k :: start <= k < |log| && log[k] == item
  }

  /** From position `start` on, only other code acted: it cancelled or completed. */
  ghost predicate OnlyOthers(start: nat, log: seq<Item>) {
    forall k | start <= k < |log| :: log[k].CancelledAll? || log[k].Completed?
  }

  lemma StandsAt(before: seq<Item>, item: Item, log: seq<Item>)
    requires before + [item] <= log
    ensures Since(|before|, log, item)
  {
    assert log[|before|] == (before + [item])[|before|];
  }

  lemma SinceEarlier(earlier: nat, start: nat, log: seq<Item>)
    requires earlier <= start
    ensures forall item | Since(start, log, item) :: Since(earlier, log, item)
  {
  }

  /** A submission does not go on: the wrong hash, a request its definition rejects, or nothing to recover. */
  predicate Refuses(call: Call, found: Option<JournalRecord>, candidate: Request) {
    || (call.expectedHash.Some? && (found.None? || found.value.request.requestHash != call.expectedHash.value))
    || !call.accepts(if found.Some? then found.value.request else candidate)
  }

  /**
   * How an undisturbed submission ends: refused; or answered from the record that was found; or its
   * request goes out, and a usable reply is recorded and answered.
   */
  ghost predicate Served(call: Call, candidate: Request, found: Option<JournalRecord>, reply: Option<Response>,
      end: End, start: nat, log: seq<Item>)
  {
    var request := if found.Some? then found.value.request else candidate;
    if Refuses(call, found, candidate) then end == Failed
    else if found.Some? && found.value.response.Some? then
      && end.Delivered? && end.recovered && end.requestHash == request.requestHash
      && Says(end.answer, found.value.response.value, call.parse)
    else
      && Since(start, log, Posted(request)) && reply.Some?
      && if Usable(reply.value, call.parse) then
           && end.Delivered? && end.requestHash == request.requestHash
           && (end.recovered <==> call.expectedHash.Some?)
           && Says(end.answer, reply.value, call.parse) && Since(start, log, Recorded(reply.value))
         else end == Failed
  }

  /** The answer that a response stands for, case by case. */
  ghost predicate Says(answer: Answer, response: Response, parse: Parser) {
    && (response.status == 200 && parse(response.text).Some? ==> answer == Success(parse(response.text).value))
    && (response.status == 200 && parse(response.text).None? ==> answer == Invalid)
    && (response.status in {400, 401, 403, 409, 410, 422, 426} ==> answer == Rejected(response.status))
  }

  /** A reply that is recorded and answered: a readable success or a durable rejection. */
  ghost predicate Usable(response: Response, parse: Parser) {
    || (response.status == 200 && parse(response.text).Some?)
    || response.status in {400, 401, 403, 409, 410, 422, 426}
  }

  lemma DeriveSays(parse: Parser, response: Response)
    ensures Says(Derive(parse, response), response, parse)
  {
  }

  lemma UsableMeans(response: Response, parse: Parser)
    ensures Usable(response, parse) <==>
      if response.status == 200 then parse(response.text).Some? else DeterministicRejection(response.status)
  {
  }

  lemma NothingRecorded(start: nat, request: Request, log: seq<Item>)
    requires start < |log| && log[start] == Posted(request) && OnlyOthers(start + 1, log)
    ensures !RecordedSince(start, log)
  {
  }

  lemma AnsweredAfterRecord(earlier: nat, start: nat, log: seq<Item>, response: Response, answered: Item)
    requires earlier <= start && Since(start, log, Recorded(response))
    ensures RecordedSince(earlier, log + [answered]) && Since(earlier, log + [answered], Recorded(response))
  {
    var k :| start <= k < |log| && log[k] == Recorded(response);
    assert (log + [answered])[k] == log[k];
  }

  /** The log records a response at position `start` or later. */
  ghost predicate RecordedSince(start: nat, log: seq<Item>) {
    exists k :: start <= k < |log| && log[k].Recorded?
  }

  lemma StillRecorded(earlier: nat, start: nat, log: seq<Item>, more: seq<Item>)
    requires earlier <= start && RecordedSince(start, log)
    ensures RecordedSince(earlier, log + more)
  {
    var k :| start <= k < |log| && log[k].Recorded?;
    assert (log + more)[k] == log[k];
  }

  /** The submission's definition and recovery fence admit the request. */
  ghost predicate Admits(call: Call, request: Request) {
    call.accepts(request) && (call.expectedHash.Some? ==> call.expectedHash == Some(request.requestHash))
  }

  /** `record` is what the journal holds, or an answered record that has been completed since. */
  ghost predicate Holds(t: Told, record: JournalRecord) {
    || (t.request == Some(record.request) && t.response == record.response
        && (t.response.Some? ==> t.latest == t.response && t.latestHash == HashOf(t)))
    || (record.response.Some? && t.latest == record.response && t.latestHash == Some(record.request.requestHash)
        && t.request.None?)
  }

  ghost predicate Agrees(journal: Option<JournalRecord>, t: Told) {
    && journal == (if t.request.Some? then Some(JournalRecord(t.request.value, t.response)) else None)
    && (t.posted || t.response.Some? ==> t.request.Some?)
    && (t.response.Some? ==> t.latest == t.response && t.latestHash == HashOf(t))
  }

  ghost predicate SameCall(before: Told, after: Told) {
    after.call == before.call && after.calledAt == before.calledAt && after.hooked == before.hooked
  }

  /** An await changes nothing the log tells, except that an answered request may be completed. */
  ghost predicate Waited(before: Told, after: Told) {
    && before.epoch <= after.epoch
    && var same := after.(epoch := before.epoch);
       same == before || (before.response.Some? && same == Tell(before, Completed))
  }
}
