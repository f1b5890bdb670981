/**
 * The protocol client request by request and waiter by waiter instead of event by event: exactly
 * what enters and leaves its tables, in every state that a run can reach.
 */
module AuthClientLaws {
  import opened Basics
  import opened AuthClient

  // ---- What an event does, without the client's own functions ----

  ghost predicate Waits(c: Client, w: nat, loginId: string) {
    loginId in c.waiters && w in c.waiters[loginId]
  }

  /** The waiter can still be aborted. */
  ghost predicate Listens(c: Client, w: nat, loginId: string) {
    w in c.listeners && c.listeners[w] == loginId
  }

  predicate Completes(messages: seq<Message>, loginId: string) {
    exists m <- messages :: m.LoginCompleted? && m.completion.loginId == loginId
  }

  function CompletionsIn(messages: seq<Message>): seq<Completion> {
    if messages == [] then []
    else (if messages[0].LoginCompleted? then [messages[0].completion] else []) + CompletionsIn(messages[1..])
  }

  /** The messages that the client handled in this step. */
  function Said(c: Client, e: Event, decode: Decoder): seq<Message> {
    var after := Step(c, e, decode).handled;
    if |c.handled| <= |after| then after[|c.handled|..] else []
  }

  /** Everything pending is rejected: the client fails, stops, or loses its process. */
  predicate EndsAll(c: Client, e: Event, decode: Decoder) {
    || (e.Stdout? && c.phase != Failed && c.phase != Stopped && Step(c, e, decode).phase == Failed)
    || (e == RuntimeFailed && c.phase != Failed && c.phase != Stopped)
    || (e == StopBegins && c.phase != Stopped)
    || (e == ProcessExited && c.phase != Stopping && c.phase != Stopped)
  }

  function PhaseAfter(c: Client, e: Event, decode: Decoder): Phase {
    if e.StartEnds? then if e.ok then Ready else Failed
    else if e.StopEnds? then if e.exited then Stopped else Failed
    else if e == StartBegins && c.phase == Idle then StartingUp
    else if !EndsAll(c, e, decode) then c.phase
    else if e == StopBegins then Stopping
    else Failed
  }

  /** A request is accepted in the phase it needs, under the next id, while ids are safe integers. */
  predicate EntersRequest(c: Client, e: Event, id: int) {
    e.CallRequest? && c.phase == e.need && id == c.nextRequestId && 1 <= id <= 9007199254740991
  }

  predicate EndsRequest(c: Client, e: Event, id: int, decode: Decoder) {
    EndsAll(c, e, decode) || e == RequestTimeout(id) || e == RequestWriteFailed(id) || Response(id) in Said(c, e, decode)
  }

  /** A call waits if the client is ready, nothing cached answers it, and it is not already aborted. */
  predicate EntersWait(c: Client, e: Event, w: nat, loginId: string) {
    && e.CallWait? && e.loginId == loginId && w == c.nextWaiter
    && c.phase == Phase.Ready && !(e.signal && e.aborted)
    && forall x <- c.completions :: x.loginId != loginId
  }

  predicate EndsWait(c: Client, e: Event, w: nat, loginId: string, decode: Decoder) {
    EndsAll(c, e, decode) || (e == Aborted(w) && w in c.listeners) || Completes(Said(c, e, decode), loginId)
  }

  ghost predicate RequestsFollow(c: Client, e: Event, decode: Decoder, d: Client) {
    && d.nextRequestId == c.nextRequestId + (if EntersRequest(c, e, c.nextRequestId) then 1 else 0)
    && forall id: int :: id in d.pending <==>
         (id in c.pending && !EndsRequest(c, e, id, decode)) || EntersRequest(c, e, id)
  }

  ghost predicate WaitersFollow(c: Client, e: Event, decode: Decoder, d: Client) {
    && d.nextWaiter == c.nextWaiter + (if e.CallWait? then 1 else 0)
    && (forall w: nat, loginId: string :: Waits(d, w, loginId) <==>
          (Waits(c, w, loginId) && !EndsWait(c, e, w, loginId, decode)) || EntersWait(c, e, w, loginId))
    && (forall w: nat, loginId: string :: Listens(d, w, loginId) <==>
          (Listens(c, w, loginId) && !EndsWait(c, e, w, loginId, decode))
          || (EntersWait(c, e, w, loginId) && e.signal))
  }

  ghost predicate RestFollows(c: Client, e: Event, decode: Decoder, d: Client) {
    && d.phase == PhaseAfter(c, e, decode)
    && d.handled == c.handled + Said(c, e, decode)
    && (Said(c, e, decode) != [] ==> e.Stdout? && c.phase != Failed && c.phase != Stopped)
    && d.history == if e == StopEnds(true) then [] else c.history + CompletionsIn(Said(c, e, decode))
  }

  /** What a step leads to. */
  ghost predicate Follows(c: Client, e: Event, decode: Decoder, d: Client) {
    RestFollows(c, e, decode, d) && RequestsFollow(c, e, decode, d) && WaitersFollow(c, e, decode, d)
  }

  /** A waiter waits for one login, and every listener belongs to one that waits. */
  ghost predicate Known(c: Client) {
    && (forall w: nat, a: string, b: string :: Waits(c, w, a) && Waits(c, w, b) ==> a == b)
    && (forall w: nat, a: string :: Waits(c, w, a) ==> w < c.nextWaiter)
    && (forall w: nat, a: string :: Listens(c, w, a) ==> Waits(c, w, a))
  }

  lemma BooksAreKnown(c: Client)
    requires WaiterBooks(c)
    ensures Known(c)
  {
    hide AllWaiting;
  }

  // ---- Messages ----

  /** `d` is what `c` becomes by these messages. */
  ghost predicate Heard(c: Client, messages: seq<Message>, d: Client) {
    && d.phase == c.phase && d.nextRequestId == c.nextRequestId && d.nextWaiter == c.nextWaiter
    && d.handled == c.handled + messages
    && d.history == c.history + CompletionsIn(messages)
    && (forall id: int :: id in d.pending <==> id in c.pending && Response(id) !in messages)
    && (forall w: nat, loginId: string :: Waits(d, w, loginId) <==>
          Waits(c, w, loginId) && !Completes(messages, loginId))
    && (forall w: nat, loginId: string :: Listens(d, w, loginId) <==>
          Listens(c, w, loginId) && !Completes(messages, loginId))
  }

  /** One message: a response settles its request, a completion its login's waiters. */
  lemma HandleIsHeard(c: Client, m: Message)
    requires Books(c)
    ensures Heard(c, [m], Handle(c, m))
  {
    hide WaiterBooks, RequestBooks, CacheBooks, KeepNewest, Without;
    BooksAreKnown(c);
    var d := Handle(c, m);
    assert [m][0] == m && [m][1..] == [];
    assert CompletionsIn([m]) == (if m.LoginCompleted? then [m.completion] else []) + CompletionsIn([]);
    assert forall loginId :: Completes([m], loginId) <==> m.LoginCompleted? && m.completion.loginId == loginId;
    assert m.LoginCompleted? || d.history == c.history + [];
    if m.LoginCompleted? {
      forall w: nat, loginId: string
        ensures Listens(d, w, loginId) <==> Listens(c, w, loginId) && loginId != m.completion.loginId
      {
        assert Listens(c, w, loginId) ==> Waits(c, w, loginId);
        assert w in WaitersOf(c, m.completion.loginId) ==> Waits(c, w, m.completion.loginId);
      }
    }
  }

  lemma HeardNothing(c: Client, d: Client)
    requires d == c.(buffer := d.buffer)
    ensures Heard(c, [], d)
  {
    assert c.handled + [] == c.handled && c.history + [] == c.history;
  }

  lemma HeardTogether(c: Client, m: Message, d: Client, messages: seq<Message>, end: Client)
    requires Heard(c, [m], d) && Heard(d, messages, end)
    ensures Heard(c, [m] + messages, end)
  {
    var all := [m] + messages;
    assert all[0] == m && all[1..] == messages && [m][1..] == [];
    assert CompletionsIn([m]) == (if m.LoginCompleted? then [m.completion] else []) + CompletionsIn([]);
    assert CompletionsIn(all) == CompletionsIn([m]) + CompletionsIn(messages);
    assert c.handled + all == c.handled + [m] + messages;
    assert c.history + CompletionsIn(all) == c.history + CompletionsIn([m]) + CompletionsIn(messages);
    forall loginId ensures Completes(all, loginId) <==> Completes([m], loginId) || Completes(messages, loginId) {
      assert forall x :: x in all <==> x in [m] || x in messages;
    }
  }

  /** Reading the buffer is hearing some messages, and perhaps failing then. */
  lemma {:induction false} DrainIsHeard(c: Client, decode: Decoder) returns (messages: seq<Message>, mid: Client)
    requires Books(c) && !Dead(c)
    ensures Heard(c, messages, mid) && Books(mid) && !Dead(mid)
    ensures Drain(c, decode) == mid || Drain(c, decode) == Fail(mid)
    decreases |c.buffer|
  {
    hide Books, Handle, Fail, Heard, StripReturn, IndexOfNewline;
    var newline := IndexOfNewline(c.buffer);
    messages, mid := [], c;
    HeardNothing(c, c);
    if newline < |c.buffer| {
      var d := c.(buffer := c.buffer[newline + 1..]);
      BufferIsNoBook(c, d.buffer);
      mid := d;
      HeardNothing(c, d);
      var line := decode(StripReturn(c.buffer[..newline]));
      if 1 <= newline <= MAX_PROTOCOL_LINE_BYTES && line.Some? {
        HandleIgnoresBuffer(d, line.value, []);
        KeepsHandle(d, line.value);
        HandleIsHeard(d, line.value);
        HeardWithout(c, d, line.value, Handle(d, line.value));
        messages, mid := DrainIsHeard(Handle(d, line.value), decode);
        HeardTogether(c, line.value, Handle(d, line.value), messages, mid);
        messages := [line.value] + messages;
      }
    }
  }

  lemma HeardWithout(c: Client, d: Client, m: Message, e: Client)
    requires d == c.(buffer := d.buffer) && Heard(d, [m], e)
    ensures Heard(c, [m], e)
  {
  }

  /** Rejecting all leaves nobody in any table. */
  lemma RejectAllEmpties(c: Client)
    requires WaiterBooks(c)
    ensures var d := RejectAll(c);
      && d.pending == {} && (forall w: nat, loginId: string :: !Waits(d, w, loginId) && !Listens(d, w, loginId))
      && d == c.(pending := {}, timers := d.timers, requestsSettled := d.requestsSettled, waiters := d.waiters,
                 listeners := d.listeners, waitersSettled := d.waitersSettled)
  {
    var d := RejectAll(c);
    forall w <- c.listeners ensures w in AllWaiting(c.waiters) {
    }
  }

  lemma StdoutFollows(c: Client, chunk: seq<Byte>, decode: Decoder)
    requires Books(c)
    ensures Follows(c, Stdout(chunk), decode, Step(c, Stdout(chunk), decode))
  {
    hide WaiterTable, RequestBooks, CacheBooks, Drain, AllWaiting;
    var e := Stdout(chunk);
    var d := Step(c, e, decode);
    if Dead(c) {
      assert Said(c, e, decode) == [];
      assert c.handled + [] == c.handled && c.history + [] == c.history;
    } else {
      var b := c.(buffer := c.buffer + chunk);
      BufferIsNoBook(c, b.buffer);
      var messages, mid := DrainIsHeard(b, decode);
      RejectAllEmpties(mid.(phase := Failed));
      assert d.handled == c.handled + messages;
      assert Said(c, e, decode) == messages;
    }
  }

  lemma SaysNothing(c: Client, e: Event, decode: Decoder)
    requires Step(c, e, decode).handled == c.handled
    ensures Said(c, e, decode) == [] && CompletionsIn(Said(c, e, decode)) == []
    ensures c.handled + [] == c.handled && c.history + [] == c.history
    ensures forall loginId :: !Completes(Said(c, e, decode), loginId)
  {
    hide Step;
  }

  lemma RequestFollows(c: Client, e: Event, decode: Decoder)
    requires Books(c) && (e.CallRequest? || e.RequestTimeout? || e.RequestWriteFailed?)
    ensures Follows(c, e, decode, Step(c, e, decode))
  {
    hide WaiterBooks, CacheBooks, RequestsFollow;
    SaysNothing(c, e, decode);
    RequestsChange(c, e, decode);
  }

  lemma RequestsChange(c: Client, e: Event, decode: Decoder)
    requires Books(c) && (e.CallRequest? || e.RequestTimeout? || e.RequestWriteFailed?)
    ensures RequestsFollow(c, e, decode, Step(c, e, decode))
  {
    hide WaiterBooks, CacheBooks;
    SaysNothing(c, e, decode);
    hide Said;
  }

  lemma {:induction false} LookupFinds(completions: seq<Completion>, loginId: string)
    ensures Lookup(completions, loginId).None? <==> forall x <- completions :: x.loginId != loginId
  {
    if completions != [] {
      LookupFinds(completions[1..], loginId);
      assert forall x :: x in completions <==> x == completions[0] || x in completions[1..];
    }
  }

  lemma WaitFollows(c: Client, loginId: string, signal: bool, aborted: bool, decode: Decoder)
    requires Books(c)
    ensures var e := CallWait(loginId, signal, aborted); Follows(c, e, decode, Step(c, e, decode))
  {
    hide CacheBooks, RequestBooks, WaiterBooks, Lookup, WaitersFollow;
    var e := CallWait(loginId, signal, aborted);
    SaysNothing(c, e, decode);
    WaitEnters(c, loginId, signal, aborted, decode);
  }

  lemma WaitEnters(c: Client, loginId: string, signal: bool, aborted: bool, decode: Decoder)
    requires Books(c)
    ensures var e := CallWait(loginId, signal, aborted); WaitersFollow(c, e, decode, Step(c, e, decode))
  {
    hide CacheBooks, RequestBooks, WaiterBooks, Lookup;
    var e := CallWait(loginId, signal, aborted);
    SaysNothing(c, e, decode);
    hide Said;
    LookupFinds(c.completions, loginId);
    BooksAreKnown(c);
    assert forall a: string :: !Listens(c, c.nextWaiter, a);
  }

  lemma AbortFollows(c: Client, w: nat, decode: Decoder)
    requires Books(c)
    ensures Follows(c, Aborted(w), decode, Step(c, Aborted(w), decode))
  {
    hide CacheBooks, RequestBooks, WaiterBooks, WaitersFollow;
    SaysNothing(c, Aborted(w), decode);
    AbortLeaves(c, w, decode);
  }

  lemma AbortLeaves(c: Client, w: nat, decode: Decoder)
    requires Books(c)
    ensures WaitersFollow(c, Aborted(w), decode, Step(c, Aborted(w), decode))
  {
    hide CacheBooks, RequestBooks, WaiterBooks;
    SaysNothing(c, Aborted(w), decode);
    hide Said;
    BooksAreKnown(c);
    var d := AbortFires(c, w);
    if w in c.listeners {
      assert Listens(c, w, c.listeners[w]) && Waits(c, w, c.listeners[w]);
      forall v: nat, loginId: string ensures Waits(d, v, loginId) <==> Waits(c, v, loginId) && v != w {
        assert v == w && Waits(c, v, loginId) ==> loginId == c.listeners[w];
        assert Waits(c, v, loginId) && v != w ==> v in c.waiters[loginId] - {w};
      }
    }
  }

  /** The steps that leave the tables alone. */
  lemma StartFollows(c: Client, e: Event, decode: Decoder)
    requires Books(c) && (e.StartBegins? || e.StartEnds? || e.StopEnds?)
    ensures Follows(c, e, decode, Step(c, e, decode))
  {
    hide CacheBooks, RequestBooks, RejectAll, WaiterTable;
    SaysNothing(c, e, decode);
  }

  /** The steps that reject everything. */
  lemma EndFollows(c: Client, e: Event, decode: Decoder)
    requires Books(c) && (e.StopBegins? || e.RuntimeFailed? || e.ProcessExited?)
    ensures Follows(c, e, decode, Step(c, e, decode))
  {
    hide CacheBooks, RequestBooks, RejectAll, WaiterTable;
    RejectAllEmpties(c.(phase := if e.StopBegins? then Stopping else Failed));
    SaysNothing(c, e, decode);
  }

  /** Every step enters and ends exactly the requests and waiters that these descriptions say. */
  lemma StepIsExplained(c: Client, e: Event, decode: Decoder)
    requires Books(c)
    ensures Follows(c, e, decode, Step(c, e, decode))
  {
    hide Books, Step, Follows;
    match e {
      case Stdout(chunk) => StdoutFollows(c, chunk, decode);
      case CallRequest(_) => RequestFollows(c, e, decode);
      case RequestTimeout(_) => RequestFollows(c, e, decode);
      case RequestWriteFailed(_) => RequestFollows(c, e, decode);
      case CallWait(loginId, signal, aborted) => WaitFollows(c, loginId, signal, aborted, decode);
      case Aborted(w) => AbortFollows(c, w, decode);
      case StartBegins => StartFollows(c, e, decode);
      case StartEnds(_) => StartFollows(c, e, decode);
      case StopEnds(_) => StartFollows(c, e, decode);
      case _ => EndFollows(c, e, decode);
    }
  }

  // ---- Whole runs ----

  /** The client before event `i`. */
  function Before(events: seq<Event>, i: nat, decode: Decoder): Client
    requires i <= |events|
  {
    Run(NewClient(), events[..i], decode)
  }

  ghost predicate RequestEntersAt(events: seq<Event>, i: nat, id: int, decode: Decoder) {
    i < |events| && EntersRequest(Before(events, i, decode), events[i], id)
  }

  ghost predicate RequestEndsAt(events: seq<Event>, i: nat, id: int, decode: Decoder) {
    i < |events| && EndsRequest(Before(events, i, decode), events[i], id, decode)
  }

  ghost predicate WaitEntersAt(events: seq<Event>, i: nat, w: nat, loginId: string, decode: Decoder) {
    i < |events| && EntersWait(Before(events, i, decode), events[i], w, loginId)
  }

  ghost predicate WaitEndsAt(events: seq<Event>, i: nat, w: nat, loginId: string, decode: Decoder) {
    i < |events| && EndsWait(Before(events, i, decode), events[i], w, loginId, decode)
  }

  /** Accepted, and since then neither answered, timed out, failed in writing, nor rejected with all. */
  ghost predicate RequestIsOpen(events: seq<Event>, id: int, decode: Decoder) {
    exists i: nat :: RequestEntersAt(events, i, id, decode)
      && forall j: nat :: RequestEndsAt(events, j, id, decode) ==> j <= i
  }

  /** Called, and since then neither completed, aborted, nor rejected with all. */
  ghost predicate WaitIsOpen(events: seq<Event>, w: nat, loginId: string, decode: Decoder) {
    exists i: nat :: WaitEntersAt(events, i, w, loginId, decode)
      && forall j: nat :: WaitEndsAt(events, j, w, loginId, decode) ==> j <= i
  }

  lemma {:induction false} RunSplits(c: Client, events: seq<Event>, e: Event, decode: Decoder)
    ensures Run(c, events + [e], decode) == Step(Run(c, events, decode), e, decode)
    decreases |events|
  {
    hide Step;
    if events == [] {
      assert events + [e] == [e] && [e][1..] == [];
    } else {
      assert (events + [e])[1..] == events[1..] + [e];
      RunSplits(Step(c, events[0], decode), events[1..], e, decode);
    }
  }

  lemma LongerRun(events: seq<Event>, e: Event, decode: Decoder)
    ensures forall i: nat | i <= |events| :: Before(events + [e], i, decode) == Before(events, i, decode)
    ensures forall i: nat | i < |events| :: (events + [e])[i] == events[i]
    ensures Before(events, |events|, decode) == Run(NewClient(), events, decode)
    ensures Run(NewClient(), events + [e], decode) == Step(Run(NewClient(), events, decode), e, decode)
  {
    hide Run;
    forall i: nat | i <= |events| ensures (events + [e])[..i] == events[..i] {
    }
    RunSplits(NewClient(), events, e, decode);
  }

  lemma RequestStaysOpen(events: seq<Event>, e: Event, id: int, decode: Decoder)
    ensures var all, n := events + [e], |events|;
      RequestIsOpen(all, id, decode) <==>
        (RequestIsOpen(events, id, decode) && !RequestEndsAt(all, n, id, decode))
        || RequestEntersAt(all, n, id, decode)
  {
    hide Before, EntersRequest, EndsRequest;
    var all, n := events + [e], |events|;
    LongerRun(events, e, decode);
    forall i: nat | i < n
      ensures RequestEntersAt(all, i, id, decode) <==> RequestEntersAt(events, i, id, decode)
      ensures RequestEndsAt(all, i, id, decode) <==> RequestEndsAt(events, i, id, decode)
    {
    }
    if RequestIsOpen(events, id, decode) && !RequestEndsAt(all, n, id, decode) {
      var i: nat :| RequestEntersAt(events, i, id, decode)
        && forall j: nat :: RequestEndsAt(events, j, id, decode) ==> j <= i;
      assert RequestEntersAt(all, i, id, decode);
    }
  }

  lemma WaitStaysOpen(events: seq<Event>, e: Event, w: nat, loginId: string, decode: Decoder)
    ensures var all, n := events + [e], |events|;
      WaitIsOpen(all, w, loginId, decode) <==>
        (WaitIsOpen(events, w, loginId, decode) && !WaitEndsAt(all, n, w, loginId, decode))
        || WaitEntersAt(all, n, w, loginId, decode)
  {
    hide Before, EntersWait, EndsWait;
    var all, n := events + [e], |events|;
    LongerRun(events, e, decode);
    forall i: nat | i < n
      ensures WaitEntersAt(all, i, w, loginId, decode) <==> WaitEntersAt(events, i, w, loginId, decode)
      ensures WaitEndsAt(all, i, w, loginId, decode) <==> WaitEndsAt(events, i, w, loginId, decode)
    {
    }
    if WaitIsOpen(events, w, loginId, decode) && !WaitEndsAt(all, n, w, loginId, decode) {
      var i: nat :| WaitEntersAt(events, i, w, loginId, decode)
        && forall j: nat :: WaitEndsAt(events, j, w, loginId, decode) ==> j <= i;
      assert WaitEntersAt(all, i, w, loginId, decode);
    }
  }

  /** After any run, a request is in the table exactly if it is still open. */
  lemma {:induction false} PendingIsOpen(events: seq<Event>, id: int, decode: Decoder)
    ensures id in Run(NewClient(), events, decode).pending <==> RequestIsOpen(events, id, decode)
    decreases |events|
  {
    hide Step, Run, Before, EntersRequest, EndsRequest, Books, RequestIsOpen;
    if events == [] {
      NothingYet();
    } else {
      var n := |events| - 1;
      var init, e := events[..n], events[n];
      PendingIsOpen(init, id, decode);
      assert events == init + [e];
      LongerRun(init, e, decode);
      RequestStaysOpen(init, e, id, decode);
      NothingYet();
      RunKeepsBooks(NewClient(), init, decode);
      StepIsExplained(Before(init, n, decode), e, decode);
    }
  }

  /** After any run, a call waits for a login exactly if it is still open. */
  lemma {:induction false} WaitingIsOpen(events: seq<Event>, w: nat, loginId: string, decode: Decoder)
    ensures Waits(Run(NewClient(), events, decode), w, loginId) <==> WaitIsOpen(events, w, loginId, decode)
    decreases |events|
  {
    hide Step, Run, Before, EntersWait, EndsWait, Books, WaitIsOpen;
    if events == [] {
      NothingYet();
    } else {
      var n := |events| - 1;
      var init, e := events[..n], events[n];
      WaitingIsOpen(init, w, loginId, decode);
      assert events == init + [e];
      LongerRun(init, e, decode);
      WaitStaysOpen(init, e, w, loginId, decode);
      NothingYet();
      RunKeepsBooks(NewClient(), init, decode);
      StepIsExplained(Before(init, n, decode), e, decode);
    }
  }

  lemma NothingYet()
    ensures Books(NewClient())
    ensures forall decode: Decoder :: Run(NewClient(), [], decode) == NewClient()
    ensures forall id: int, decode: Decoder :: !RequestIsOpen([], id, decode)
    ensures forall w: nat, loginId: string, decode: Decoder :: !WaitIsOpen([], w, loginId, decode)
  {
    EmptyCache(NewClient());
  }
}
