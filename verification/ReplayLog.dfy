/**
 * What must be true of everything that ever happens to one request reference: creation,
 * submissions, POSTs, the recorded response, completion and the answers handed to callers.
 * Digests, signatures and bodies are opaque text inside `Request`.
 */
module ReplayLog {
  import opened Basics

  /** The journalled request: what is signed and posted, and never rebuilt. */
  datatype Request = Request(
    origin: string,
    authorization: string,
    body: string,
    signature: string,
    requestHash: string,
    createdAt: int)

  datatype Response = Response(status: int, text: string, receivedAt: int)

  type Parser = string -> Option<int>

  /**
   * One submission: whether it passes hooks, the hash a recovery insists on, which requests
   * its definition (with identity and origin) accepts, and how it parses a success.
   */
  datatype Call = Call(
    hooks: bool,
    expectedHash: Option<string>,
    accepts: Request -> bool,
    parse: Parser)

  datatype Answer = Success(data: int) | Rejected(status: int) | Invalid

  /** The only statuses that are durable business rejections. */
  predicate DeterministicRejection(status: int) {
    status in {400, 401, 403, 409, 410, 422, 426}
  }

  /** The answer a stored response stands for. */
  function Derive(parse: Parser, r: Response): Answer {
    if r.status == 200 then
      match parse(r.text)
      case Some(data) => Success(data)
      case None => Invalid
    else if DeterministicRejection(r.status) then Rejected(r.status)
    else Invalid
  }

  datatype Item =
    | Entered(call: Call, calledAt: nat)
    | Created(request: Request)
    | HookResolved(hash: string, responseAvailable: bool)
    | Posted(request: Request)
    | Recorded(response: Response)
    | Answered(answer: Answer, requestHash: string)
    | Completed
    | CancelledAll
    | Restarted

  /**
   * What a log says: the journal's content, the response recorded last with the hash of its
   * request, the cancellation epoch, the submission in the lane with the epoch its caller saw,
   * and whether its hook resolved.
   */
  datatype Told = Told(
    request: Option<Request>,
    posted: bool,
    response: Option<Response>,
    latest: Option<Response>,
    latestHash: Option<string>,
    epoch: nat,
    call: Option<Call>,
    calledAt: nat,
    hooked: Option<string>)

  const NOTHING := Told(None, false, None, None, None, 0, None, 0, None)

  /** The hash of the journalled request. */
  function HashOf(t: Told): Option<string> {
    if t.request.Some? then Some(t.request.value.requestHash) else None
  }

  ghost function Tell(t: Told, item: Item): Told {
    match item
    case Entered(call, calledAt) => t.(call := Some(call), calledAt := calledAt, hooked := None)
    case Created(request) => t.(request := Some(request), posted := false, response := None)
    case HookResolved(hash, _) => t.(hooked := Some(hash))
    case Posted(_) => t.(posted := true)
    case Recorded(response) => t.(response := Some(response), latest := Some(response), latestHash := HashOf(t))
    case Answered(_, _) => t
    case Completed => t.(request := None, posted := false, response := None)
    case CancelledAll => t.(epoch := t.epoch + 1)
    case Restarted => t.(epoch := 0, call := None, hooked := None)
  }

  /** A submission is active until a cancellation after its caller saw the epoch. */
  ghost predicate ActiveCall(t: Told) {
    t.call.Some? && t.calledAt == t.epoch
  }

  /** The rules each item must respect, given what the log said before it. */
  ghost predicate Legal(t: Told, item: Item) {
    match item
    case Entered(_, calledAt) => calledAt <= t.epoch
    case Created(request) =>
      t.request.None? && t.call.Some? && t.call.value.expectedHash.None? && t.call.value.accepts(request)
    case HookResolved(_, _) => t.call.Some? && t.call.value.hooks
    case Posted(request) =>
      && t.request == Some(request)
      && t.response.None?
      && ActiveCall(t)
      && t.call.value.accepts(request)
      && (t.call.value.hooks ==> t.hooked == Some(request.requestHash))
      && (t.call.value.expectedHash.Some? ==> t.call.value.expectedHash == Some(request.requestHash))
    case Recorded(response) =>
      t.posted && t.response.None? && (response.status == 200 || DeterministicRejection(response.status))
    case Answered(answer, requestHash) =>
      && ActiveCall(t) && t.latest.Some? && answer == Derive(t.call.value.parse, t.latest.value)
      && t.latestHash == Some(requestHash)
    case Completed => t.response.Some?
    case CancelledAll => true
    case Restarted => true
  }

  ghost function Replay(log: seq<Item>): Told {
    if log == [] then NOTHING else Tell(Replay(log[..|log| - 1]), log[|log| - 1])
  }

  ghost predicate Lawful(log: seq<Item>) {
    forall i :: 0 <= i < |log| ==> Legal(Replay(log[..i]), log[i])
  }

  lemma LawfulAppend(log: seq<Item>, item: Item)
    requires Lawful(log) && Legal(Replay(log), item)
    ensures Lawful(log + [item]) && Replay(log + [item]) == Tell(Replay(log), item)
  {
    hide Legal;
    var longer := log + [item];
    assert longer[..|longer| - 1] == log;
    forall i | 0 <= i < |longer| ensures Legal(Replay(longer[..i]), longer[i]) {
      assert i < |log| ==> longer[..i] == log[..i];
    }
  }

  lemma ReplayStep(log: seq<Item>, i: int)
    requires 0 <= i < |log|
    ensures Replay(log[..i + 1]) == Tell(Replay(log[..i]), log[i])
  {
    assert log[..i + 1][..i] == log[..i];
  }

  /** No completion happens at positions i, i + 1, ..., j - 1. */
  predicate SamePeriod(log: seq<Item>, i: int, j: int) {
    forall k :: i <= k < j && 0 <= k < |log| ==> !log[k].Completed?
  }

  /** From its creation to its completion the journalled request never changes. */
  lemma {:induction false} RequestStays(log: seq<Item>, i: int, j: int)
    requires Lawful(log) && 0 <= i <= j <= |log| && SamePeriod(log, i, j)
    requires Replay(log[..i]).request.Some?
    ensures Replay(log[..j]).request == Replay(log[..i]).request
    ensures Replay(log[..i]).response.Some? ==> Replay(log[..j]).response == Replay(log[..i]).response
    decreases j - i
  {
    if i < j {
      RequestStays(log, i, j - 1);
      ReplayStep(log, j - 1);
      assert Legal(Replay(log[..j - 1]), log[j - 1]);
    }
  }

  /**
   * Exact replay: between two completions every POST carries one and the same request,
   * whatever crashes, cancellations, hook failures and submissions lie between them.
   */
  lemma EveryPostIsTheSame(log: seq<Item>, i: int, j: int)
    requires Lawful(log) && 0 <= i < j < |log| && SamePeriod(log, i, j)
    requires log[i].Posted? && log[j].Posted?
    ensures log[i].request == log[j].request
  {
    assert Legal(Replay(log[..i]), log[i]) && Legal(Replay(log[..j]), log[j]);
    RequestStays(log, i, j);
  }

  /** After a response is recorded the request is not posted again and no other is recorded. */
  lemma NoPostAfterResponse(log: seq<Item>, i: int, j: int)
    requires Lawful(log) && 0 <= i < j < |log| && SamePeriod(log, i, j)
    requires log[i].Recorded?
    ensures !log[j].Posted? && !log[j].Recorded? && !log[j].Created?
  {
    assert Legal(Replay(log[..i]), log[i]) && Legal(Replay(log[..j]), log[j]);
    PostedMeansCreated(log, i);
    ReplayStep(log, i);
    RequestStays(log, i + 1, j);
  }

  lemma {:induction false} PostedMeansCreated(log: seq<Item>, i: int)
    requires Lawful(log) && 0 <= i <= |log|
    ensures Replay(log[..i]).posted || Replay(log[..i]).response.Some? ==> Replay(log[..i]).request.Some?
    decreases i
  {
    if i > 0 {
      PostedMeansCreated(log, i - 1);
      ReplayStep(log, i - 1);
      assert Legal(Replay(log[..i - 1]), log[i - 1]);
    }
  }

  /**
   * Every answer, at whatever distance, is derived from a recorded response, and from the
   * one recorded last: no other response was recorded in between. It names the request that
   * the response was recorded for.
   */
  lemma {:induction false} AnswersComeFromTheRecord(log: seq<Item>, j: int)
    requires Lawful(log) && 0 <= j < |log| && log[j].Answered?
    ensures exists i, c ::
      && 0 <= i < j && log[i].Recorded?
      && (forall k :: i < k < j ==> !log[k].Recorded?)
      && 0 <= c < j && log[c].Entered?
      && (forall k :: c < k < j ==> !log[k].Entered?)
      && log[j].answer == Derive(log[c].call.parse, log[i].response)
      && HashOf(Replay(log[..i])) == Some(log[j].requestHash)
  {
    assert Legal(Replay(log[..j]), log[j]);
    var i := LatestAt(log, j);
    var c := EnteredAt(log, j);
    assert log[j].answer == Derive(log[c].call.parse, log[i].response);
  }

  lemma {:induction false} LatestAt(log: seq<Item>, j: int) returns (i: int)
    requires 0 <= j <= |log| && Replay(log[..j]).latest.Some?
    ensures 0 <= i < j && log[i].Recorded? && Replay(log[..j]).latest == Some(log[i].response)
    ensures Replay(log[..j]).latestHash == HashOf(Replay(log[..i]))
    ensures forall k :: i < k < j ==> !log[k].Recorded?
    decreases j
  {
    ReplayStep(log, j - 1);
    if log[j - 1].Recorded? {
      i := j - 1;
    } else {
      i := LatestAt(log, j - 1);
    }
  }

  lemma {:induction false} EnteredAt(log: seq<Item>, j: int) returns (c: int)
    requires 0 <= j <= |log| && Replay(log[..j]).call.Some?
    ensures 0 <= c < j && log[c].Entered? && Replay(log[..j]).call == Some(log[c].call)
    ensures forall k :: c < k < j ==> !log[k].Entered?
    decreases j
  {
    ReplayStep(log, j - 1);
    if log[j - 1].Entered? {
      c := j - 1;
    } else {
      c := EnteredAt(log, j - 1);
    }
  }

  /**
   * A submission with hooks posts only after its own hook resolved, for exactly the request
   * it posts; and a recovery posts only the request with the hash it insisted on.
   */
  lemma {:induction false} PostFollowsItsHook(log: seq<Item>, j: int)
    requires Lawful(log) && 0 <= j < |log| && log[j].Posted?
    ensures exists c ::
      && 0 <= c < j && log[c].Entered?
      && (forall k :: c < k < j ==> !log[k].Entered?)
      && (log[c].call.expectedHash.Some? ==> log[c].call.expectedHash == Some(log[j].request.requestHash))
      && (log[c].call.hooks ==> exists h ::
            c < h < j && log[h].HookResolved? && log[h].hash == log[j].request.requestHash)
  {
    assert Legal(Replay(log[..j]), log[j]);
    var c := EnteredAt(log, j);
    if log[c].call.hooks {
      var h := HookedAt(log, c, j);
      assert log[h].hash == log[j].request.requestHash;
    }
  }

  lemma {:induction false} HookedAt(log: seq<Item>, c: int, j: int) returns (h: int)
    requires 0 <= c < j <= |log| && log[c].Entered? && Replay(log[..j]).hooked.Some?
    requires forall k :: c < k < j ==> !log[k].Entered?
    ensures c < h < j && log[h].HookResolved? && Replay(log[..j]).hooked == Some(log[h].hash)
    decreases j
  {
    ReplayStep(log, j - 1);
    if log[j - 1].HookResolved? {
      h := j - 1;
    } else if c < j - 1 {
      h := HookedAt(log, c, j - 1);
    } else {
      assert false;
    }
  }

  /** A recorded response answers a POST of the same period. */
  lemma {:induction false} ResponseFollowsPost(log: seq<Item>, j: int)
    requires Lawful(log) && 0 <= j < |log| && log[j].Recorded?
    ensures exists p :: 0 <= p < j && log[p].Posted? && SamePeriod(log, p, j)
  {
    assert Legal(Replay(log[..j]), log[j]);
    var p := PostedAt(log, j);
  }

  lemma {:induction false} PostedAt(log: seq<Item>, j: int) returns (p: int)
    requires 0 <= j <= |log| && Replay(log[..j]).posted
    ensures 0 <= p < j && log[p].Posted? && SamePeriod(log, p, j)
    decreases j
  {
    ReplayStep(log, j - 1);
    if log[j - 1].Posted? {
      p := j - 1;
    } else {
      p := PostedAt(log, j - 1);
    }
  }

  lemma LawfulAt(log: seq<Item>, i: int)
    requires Lawful(log) && 0 <= i < |log|
    ensures Legal(Replay(log[..i]), log[i])
    ensures log[i].Entered? ==> log[i].calledAt <= Replay(log[..i]).epoch
  {
  }

  /** After a cancellation the submission that was in the lane neither posts nor answers. */
  lemma CancelSilences(log: seq<Item>, c: int, i: int, j: int)
    requires Lawful(log) && 0 <= c < i < j < |log|
    requires log[c].Entered? && log[i].CancelledAll?
    requires forall k :: c < k < j ==> !log[k].Entered?
    ensures !log[j].Posted? && !log[j].Answered?
  {
    assert Legal(Replay(log[..j]), log[j]);
    SilentAt(log, c, i, j);
  }

  lemma {:induction false} SilentAt(log: seq<Item>, c: int, i: int, j: int)
    requires Lawful(log) && 0 <= c < i < j <= |log|
    requires log[c].Entered? && log[i].CancelledAll?
    requires forall k :: c < k < j ==> !log[k].Entered?
    ensures Replay(log[..j]).call.None? || Replay(log[..j]).calledAt < Replay(log[..j]).epoch
    decreases j
  {
    hide Legal, Lawful, Replay;
    ReplayStep(log, j - 1);
    if j - 1 > i {
      SilentAt(log, c, i, j - 1);
    } else {
      CalledInThePast(log, c, i);
    }
  }

  lemma {:induction false} CalledInThePast(log: seq<Item>, c: int, j: int)
    requires Lawful(log) && 0 <= c < j <= |log| && log[c].Entered?
    requires forall k :: c < k < j ==> !log[k].Entered?
    ensures Replay(log[..j]).call.None? || Replay(log[..j]).calledAt <= Replay(log[..j]).epoch
    decreases j
  {
    hide Legal, Lawful, Replay;
    ReplayStep(log, j - 1);
    if j - 1 > c {
      CalledInThePast(log, c, j - 1);
    } else {
      LawfulAt(log, c);
    }
  }
}
