/**
 * The App Server protocol client: stdout framing, request and login-waiter bookkeeping and
 * the completion cache. `Client` is the object's value; module AuthClientRuntime updates it in place.
 * Decoding one line (UTF-8, JSON, message shape) is a parameter; listeners do not re-enter.
 */
module AuthClient {
  import opened Basics

  type Byte = n: int | 0 <= n < 256

  const NEWLINE: Byte := 0x0a
  const CARRIAGE_RETURN: Byte := 0x0d
  const MAX_PROTOCOL_LINE_BYTES := 1_048_576
  const MAX_COMPLETIONS := 32

  datatype Phase = Idle | StartingUp | Ready | Stopping | Stopped | Failed

  datatype Completion = Completion(loginId: string, success: bool)

  datatype Message =
    | ServerRequest
    | Response(id: int)
    | LoginCompleted(completion: Completion)
    | OtherNotification

  /** The meaning of one protocol line; None when the line or its message is invalid. */
  type Decoder = seq<Byte> -> Option<Message>

  datatype Client = Client(
    phase: Phase,
    buffer: seq<Byte>,
    handled: seq<Message>,
    nextRequestId: int,
    pending: set<int>,
    timers: set<int>,
    requestsSettled: multiset<int>,
    waiters: map<string, set<nat>>,
    listeners: map<nat, string>,
    nextWaiter: nat,
    waitersSettled: multiset<nat>,
    completions: seq<Completion>,
    history: seq<Completion>)

  function NewClient(): Client {
    Client(Idle, [], [], 1, {}, {}, multiset{}, map[], map[], 0, multiset{}, [], [])
  }

  predicate Dead(c: Client) {
    c.phase == Failed || c.phase == Stopped
  }

  // ---- Requests ----

  /** requestInternal, called in phase `need`; no promise is pending when it refuses. */
  function Request(c: Client, need: Phase): Client {
    if c.phase != need || !SafeInteger(c.nextRequestId) || c.nextRequestId < 1 then c
    else c.(nextRequestId := c.nextRequestId + 1,
            pending := c.pending + {c.nextRequestId},
            timers := c.timers + {c.nextRequestId})
  }

  function SettleRequest(c: Client, id: int): Client {
    c.(pending := c.pending - {id}, timers := c.timers - {id},
       requestsSettled := c.requestsSettled + multiset{id})
  }

  /** The timer callback rejects without looking at the table. */
  function TimeoutFires(c: Client, id: int): Client {
    if id !in c.timers then c else SettleRequest(c, id)
  }

  function WriteFailed(c: Client, id: int): Client {
    if id !in c.pending then c else SettleRequest(c, id)
  }

  function Respond(c: Client, id: int): Client {
    if id !in c.pending then c else SettleRequest(c, id)
  }

  // ---- Login waiters and the completion cache ----

  function Lookup(completions: seq<Completion>, loginId: string): Option<Completion> {
    if completions == [] then None
    else if completions[0].loginId == loginId then Some(completions[0])
    else Lookup(completions[1..], loginId)
  }

  function Without(completions: seq<Completion>, loginId: string): seq<Completion> {
    if completions == [] then []
    else if completions[0].loginId == loginId then Without(completions[1..], loginId)
    else [completions[0]] + Without(completions[1..], loginId)
  }

  function KeepNewest(completions: seq<Completion>): seq<Completion> {
    if |completions| > MAX_COMPLETIONS then completions[|completions| - MAX_COMPLETIONS..] else completions
  }

  function WaitersOf(c: Client, loginId: string): set<nat> {
    if loginId in c.waiters then c.waiters[loginId] else {}
  }

  /** waitForLogin: answered at once, refused, or entered in the table with an abort listener. */
  function WaitForLogin(c: Client, loginId: string, signal: bool, aborted: bool): Client {
    var w := c.nextWaiter;
    var d := c.(nextWaiter := w + 1);
    if Lookup(c.completions, loginId).Some? || c.phase != Ready || (signal && aborted) then
      d.(waitersSettled := c.waitersSettled + multiset{w})
    else
      d.(waiters := c.waiters[loginId := WaitersOf(c, loginId) + {w}],
         listeners := if signal then c.listeners[w := loginId] else c.listeners)
  }

  function RemoveWaiter(waiters: map<string, set<nat>>, loginId: string, w: nat): map<string, set<nat>> {
    if loginId !in waiters then waiters
    else if waiters[loginId] - {w} == {} then waiters - {loginId}
    else waiters[loginId := waiters[loginId] - {w}]
  }

  /** The abort listener of waiter `w` settles it without looking at the table. */
  function AbortFires(c: Client, w: nat): Client {
    if w !in c.listeners then c
    else c.(waiters := RemoveWaiter(c.waiters, c.listeners[w], w),
            listeners := c.listeners - {w},
            waitersSettled := c.waitersSettled + multiset{w})
  }

  function Complete(c: Client, completion: Completion): Client {
    var waiting := WaitersOf(c, completion.loginId);
    c.(completions := KeepNewest(Without(c.completions, completion.loginId) + [completion]),
       history := c.history + [completion],
       waiters := c.waiters - {completion.loginId},
       listeners := c.listeners - waiting,
       waitersSettled := c.waitersSettled + multiset(waiting))
  }

  function AllWaiting(waiters: map<string, set<nat>>): set<nat> {
    set loginId <- waiters, w <- waiters[loginId] :: w
  }

  function RejectAll(c: Client): Client {
    var waiting := AllWaiting(c.waiters);
    c.(pending := {}, timers := c.timers - c.pending,
       requestsSettled := c.requestsSettled + multiset(c.pending),
       waiters := map[], listeners := c.listeners - waiting,
       waitersSettled := c.waitersSettled + multiset(waiting))
  }

  // ---- Life cycle ----

  function Fail(c: Client): Client {
    if Dead(c) then c else RejectAll(c.(phase := Failed))
  }

  function BeginStart(c: Client): Client {
    if c.phase != Idle then c else c.(phase := StartingUp)
  }

  /** start() after its last await: it assigns the phase whatever happened meanwhile. */
  function FinishStart(c: Client, ok: bool): Client {
    c.(phase := if ok then Ready else Failed)
  }

  function BeginStop(c: Client): Client {
    if c.phase == Stopped then c else RejectAll(c.(phase := Stopping))
  }

  function FinishStop(c: Client, exited: bool): Client {
    if !exited then c.(phase := Failed)
    else c.(phase := Stopped, buffer := [], completions := [], history := [])
  }

  function ChildExited(c: Client): Client {
    if c.phase == Stopping || c.phase == Stopped then c else RejectAll(c.(phase := Failed))
  }

  // ---- Framing ----

  function Handle(c: Client, m: Message): Client {
    var d := c.(handled := c.handled + [m]);
    match m
    case ServerRequest => d
    case Response(id) => Respond(d, id)
    case LoginCompleted(completion) => Complete(d, completion)
    case OtherNotification => d
  }

  function IndexOfNewline(bytes: seq<Byte>): (i: nat)
    ensures i <= |bytes|
    ensures i < |bytes| ==> bytes[i] == NEWLINE
    ensures forall j :: 0 <= j < i ==> bytes[j] != NEWLINE
  {
    if bytes == [] || bytes[0] == NEWLINE then 0 else 1 + IndexOfNewline(bytes[1..])
  }

  function StripReturn(raw: seq<Byte>): seq<Byte> {
    if raw != [] && raw[|raw| - 1] == CARRIAGE_RETURN then raw[..|raw| - 1] else raw
  }

  /** The reading loop of consumeStdout over the whole buffer. */
  function Drain(c: Client, decode: Decoder): Client
    decreases |c.buffer|
  {
    var newline := IndexOfNewline(c.buffer);
    if newline == |c.buffer| then
      if |c.buffer| > MAX_PROTOCOL_LINE_BYTES then Fail(c) else c
    else
      var raw := c.buffer[..newline];
      var d := c.(buffer := c.buffer[newline + 1..]);
      if |raw| < 1 || |raw| > MAX_PROTOCOL_LINE_BYTES then Fail(d)
      else
        match decode(StripReturn(raw))
        case None => Fail(d)
        case Some(m) => Drain(Handle(d, m), decode)
  }

  function Consume(c: Client, chunk: seq<Byte>, decode: Decoder): Client {
    if Dead(c) then c else Drain(c.(buffer := c.buffer + chunk), decode)
  }

  function ConsumeAll(c: Client, chunks: seq<seq<Byte>>, decode: Decoder): Client
    decreases |chunks|
  {
    if chunks == [] then c else ConsumeAll(Consume(c, chunks[0], decode), chunks[1..], decode)
  }

  function Flatten(chunks: seq<seq<Byte>>): seq<Byte> {
    if chunks == [] then [] else chunks[0] + Flatten(chunks[1..])
  }

  /** Everything that matters about a client: once dead, its unread bytes do not. */
  function Observed(c: Client): Client {
    if Dead(c) then c.(buffer := []) else c
  }

  /** A line, finished or not, that is already too long fails the client. */
  lemma TooLongFails(c: Client, decode: Decoder)
    requires !Dead(c) && IndexOfNewline(c.buffer) > MAX_PROTOCOL_LINE_BYTES
    ensures Observed(Drain(c, decode)) == Observed(Fail(c)) && Dead(Drain(c, decode))
  {
    hide Handle, Fail, StripReturn, IndexOfNewline;
    var newline := IndexOfNewline(c.buffer);
    FailForgetsBuffer(c, []);
    if newline < |c.buffer| {
      FailForgetsBuffer(c, c.buffer[newline + 1..]);
    }
  }

  lemma NewlineComesLater(bytes: seq<Byte>, more: seq<Byte>)
    requires IndexOfNewline(bytes) == |bytes|
    ensures IndexOfNewline(bytes + more) >= |bytes|
  {
    assert forall j :: 0 <= j < |bytes| ==> (bytes + more)[j] == bytes[j];
  }

  /** Bytes without a newline: too many of them fail at once, or as soon as more arrive. */
  lemma DrainUnfinished(c: Client, more: seq<Byte>, decode: Decoder)
    requires !Dead(c) && IndexOfNewline(c.buffer) == |c.buffer|
    ensures Observed(Consume(Drain(c, decode), more, decode)) ==
      Observed(Drain(c.(buffer := c.buffer + more), decode))
  {
    if |c.buffer| > MAX_PROTOCOL_LINE_BYTES {
      hide Drain, IndexOfNewline, Fail;
      NewlineComesLater(c.buffer, more);
      TooLongFails(c, decode);
      TooLongFails(c.(buffer := c.buffer + more), decode);
      FailForgetsBuffer(c, c.buffer + more);
    } else {
      hide Handle, Fail, IndexOfNewline, StripReturn;
      assert Drain(c, decode) == c;
    }
  }

  /** Reading two chunks one after the other is reading their concatenation. */
  lemma {:induction false} DrainTwice(c: Client, more: seq<Byte>, decode: Decoder)
    requires !Dead(c)
    ensures Observed(Consume(Drain(c, decode), more, decode)) ==
      Observed(Drain(c.(buffer := c.buffer + more), decode))
    decreases |c.buffer|
  {
    hide Handle, Fail, StripReturn, IndexOfNewline;
    var newline := IndexOfNewline(c.buffer);
    if newline == |c.buffer| {
      DrainUnfinished(c, more, decode);
    } else {
      var all := c.buffer + more;
      FirstNewline(c.buffer, more);
      assert all[..newline] == c.buffer[..newline];
      assert all[newline + 1..] == c.buffer[newline + 1..] + more;
      var d := c.(buffer := c.buffer[newline + 1..]);
      var e := c.(buffer := all[newline + 1..]);
      FailForgetsBuffer(d, e.buffer);
      var line := decode(StripReturn(c.buffer[..newline]));
      if line.Some? {
        HandleIgnoresBuffer(d, line.value, e.buffer);
        DrainTwice(Handle(d, line.value), more, decode);
      }
    }
  }

  lemma FirstNewline(bytes: seq<Byte>, more: seq<Byte>)
    requires IndexOfNewline(bytes) < |bytes|
    ensures IndexOfNewline(bytes + more) == IndexOfNewline(bytes)
  {
    var i, j := IndexOfNewline(bytes), IndexOfNewline(bytes + more);
    assert (bytes + more)[i] == NEWLINE;
    assert j <= i;
    assert bytes[j] == (bytes + more)[j];
  }

  lemma FailForgetsBuffer(c: Client, buffer: seq<Byte>)
    requires !Dead(c)
    ensures Dead(Fail(c)) && Observed(Fail(c)) == Observed(Fail(c.(buffer := buffer)))
  {
  }

  lemma HandleIgnoresBuffer(c: Client, m: Message, buffer: seq<Byte>)
    ensures Handle(c.(buffer := buffer), m) == Handle(c, m).(buffer := buffer)
    ensures Handle(c, m).phase == c.phase && Handle(c, m).buffer == c.buffer
  {
  }

  lemma {:induction false} ConsumeAllIsConsume(c: Client, chunks: seq<seq<Byte>>, decode: Decoder)
    requires Drained(c, decode)
    ensures Observed(ConsumeAll(c, chunks, decode)) == Observed(Consume(c, Flatten(chunks), decode))
    decreases |chunks|
  {
    hide Drain;
    if chunks == [] {
      assert c.buffer + [] == c.buffer;
    } else if Dead(c) {
      DeadIgnores(c, chunks, decode);
    } else {
      var first := Consume(c, chunks[0], decode);
      var start := c.(buffer := c.buffer + chunks[0]);
      DrainLeavesDrained(start, decode);
      ConsumeAllIsConsume(first, chunks[1..], decode);
      DrainTwice(start, Flatten(chunks[1..]), decode);
      assert c.buffer + Flatten(chunks) == start.buffer + Flatten(chunks[1..]);
    }
  }

  /** No complete line is left unread. */
  predicate Drained(c: Client, decode: Decoder) {
    Dead(c) || Drain(c, decode) == c
  }

  lemma {:induction false} DrainLeavesDrained(c: Client, decode: Decoder)
    requires !Dead(c)
    ensures Drained(Drain(c, decode), decode)
    decreases |c.buffer|
  {
    hide Complete, Respond, RejectAll;
    var newline := IndexOfNewline(c.buffer);
    var d := c.(buffer := if newline < |c.buffer| then c.buffer[newline + 1..] else c.buffer);
    FailForgetsBuffer(d, []);
    if newline < |c.buffer| {
      var line := decode(StripReturn(c.buffer[..newline]));
      if line.Some? {
        HandleIgnoresBuffer(d, line.value, []);
        DrainLeavesDrained(Handle(d, line.value), decode);
      }
    }
  }

  lemma {:induction false} DeadIgnores(c: Client, chunks: seq<seq<Byte>>, decode: Decoder)
    requires Dead(c)
    ensures ConsumeAll(c, chunks, decode) == c
    decreases |chunks|
  {
    if chunks != [] {
      DeadIgnores(c, chunks[1..], decode);
    }
  }

  /**
   * Framing does not depend on chunking: two ways of splitting one byte stream handle the
   * same messages and end in the same client, failed or not.
   */
  lemma ChunkingIsInvisible(c: Client, one: seq<seq<Byte>>, two: seq<seq<Byte>>, decode: Decoder)
    requires Drained(c, decode)
    requires Flatten(one) == Flatten(two)
    ensures Observed(ConsumeAll(c, one, decode)) == Observed(ConsumeAll(c, two, decode))
  {
    ConsumeAllIsConsume(c, one, decode);
    ConsumeAllIsConsume(c, two, decode);
  }

  /** A line as the server means it: a payload, ended by a newline or by CR and newline. */
  datatype Line = Line(payload: seq<Byte>, crlf: bool)

  /** No newline inside, and a payload that ends in CR is never ended by a bare newline. */
  predicate Plain(line: Line) {
    && (forall b <- line.payload :: b != 0x0a)
    && (line.crlf || line.payload == [] || line.payload[|line.payload| - 1] != 0x0d)
  }

  function BytesOf(line: Line): seq<Byte> {
    line.payload + if line.crlf then [0x0d, 0x0a] else [0x0a]
  }

  function Encoded(lines: seq<Line>): seq<Byte> {
    if lines == [] then [] else BytesOf(lines[0]) + Encoded(lines[1..])
  }

  /** 1 to 1 MiB before the newline, CR included. */
  predicate GoodSize(line: Line) {
    1 <= |line.payload| + (if line.crlf then 1 else 0) <= 1_048_576
  }

  /** What the payloads say, up to the first line of a bad size or without a meaning. */
  function Understood(lines: seq<Line>, decode: Decoder): seq<Message> {
    if lines == [] || !GoodSize(lines[0]) || decode(lines[0].payload).None? then []
    else [decode(lines[0].payload).value] + Understood(lines[1..], decode)
  }

  lemma NewlineAt(bytes: seq<Byte>, i: nat)
    requires i < |bytes| && bytes[i] == NEWLINE && forall j :: 0 <= j < i ==> bytes[j] != NEWLINE
    ensures IndexOfNewline(bytes) == i
  {
    hide IndexOfNewline;
    var k := IndexOfNewline(bytes);
    assert !(k < i) && !(i < k);
  }

  /** How the next line of the buffer is cut out and stripped. */
  lemma FirstLine(line: Line, rest: seq<Byte>)
    requires Plain(line)
    ensures var bytes := BytesOf(line) + rest;
      var newline := IndexOfNewline(bytes);
      && newline == |line.payload| + (if line.crlf then 1 else 0) < |bytes|
      && StripReturn(bytes[..newline]) == line.payload
      && bytes[newline + 1..] == rest
  {
    hide IndexOfNewline;
    var n := |line.payload| + (if line.crlf then 1 else 0);
    var raw := line.payload + if line.crlf then [CARRIAGE_RETURN] else [];
    var bytes := BytesOf(line) + rest;
    assert bytes == raw + [NEWLINE] + rest;
    forall j | 0 <= j < n ensures bytes[j] != NEWLINE {
      assert bytes[j] == raw[j];
      assert j < |line.payload| ==> raw[j] == line.payload[j] && line.payload[j] in line.payload;
    }
    NewlineAt(bytes, n);
    assert bytes[..n] == raw && bytes[n + 1..] == rest;
    assert line.crlf ==> raw[..|raw| - 1] == line.payload;
  }

  lemma NoLine(tail: seq<Byte>)
    requires forall b <- tail :: b != 0x0a
    ensures IndexOfNewline(tail) == |tail|
  {
    hide IndexOfNewline;
    var k := IndexOfNewline(tail);
    assert forall j | 0 <= j < |tail| :: tail[j] in tail;
  }

  lemma DrainTail(c: Client, decode: Decoder)
    requires forall b <- c.buffer :: b != 0x0a
    ensures Drain(c, decode) == if |c.buffer| > 1_048_576 then Fail(c) else c
  {
    hide Handle, Fail, StripReturn, IndexOfNewline;
    NoLine(c.buffer);
  }

  /** One line of the reading loop: its payload is decoded and handled, or the client fails. */
  lemma DrainLine(c: Client, line: Line, rest: seq<Byte>, decode: Decoder)
    requires Plain(line) && c.buffer == BytesOf(line) + rest
    ensures var d := c.(buffer := rest);
      Drain(c, decode) == if GoodSize(line) && decode(line.payload).Some?
                          then Drain(Handle(d, decode(line.payload).value), decode)
                          else Fail(d)
  {
    hide Handle, Fail, StripReturn, IndexOfNewline, Plain, BytesOf;
    FirstLine(line, rest);
  }

  /**
   * The framing verdict, over the lines that the bytes mean: the client handles exactly what their
   * payloads say up to the first bad line, and survives exactly when no line is bad and the
   * unfinished tail has at most 1 MiB.
   */
  lemma {:induction false} DrainVerdict(c: Client, lines: seq<Line>, tail: seq<Byte>, decode: Decoder)
    requires !Dead(c) && c.buffer == Encoded(lines) + tail
    requires (forall line <- lines :: Plain(line)) && forall b <- tail :: b != 0x0a
    ensures var good, d := Understood(lines, decode), Drain(c, decode);
      && d.handled == c.handled + good
      && (!Dead(d) <==> |good| == |lines| && |tail| <= 1_048_576)
      && (!Dead(d) ==> d.buffer == tail)
    decreases |lines|
  {
    hide Handle, Fail, Observed, Plain, BytesOf, Drain;
    FailForgetsBuffer(c, []);
    FailKeepsHandled(c);
    if lines == [] {
      assert c.buffer == tail;
      DrainTail(c, decode);
    } else {
      var line, rest := lines[0], Encoded(lines[1..]) + tail;
      assert c.buffer == BytesOf(line) + rest;
      DrainLine(c, line, rest, decode);
      var d := c.(buffer := rest);
      FailForgetsBuffer(d, []);
      FailKeepsHandled(d);
      if GoodSize(line) && decode(line.payload).Some? {
        var m := decode(line.payload).value;
        HandleIgnoresBuffer(d, m, []);
        HandleRecords(d, m);
        DrainVerdict(Handle(d, m), lines[1..], tail, decode);
      }
    }
  }

  /** Every byte sequence means such lines and an unfinished tail, so the verdict covers all input. */
  lemma {:induction false} EveryBufferHasLines(bytes: seq<Byte>) returns (lines: seq<Line>, tail: seq<Byte>)
    ensures bytes == Encoded(lines) + tail
    ensures (forall line <- lines :: Plain(line)) && forall b <- tail :: b != 0x0a
    decreases |bytes|
  {
    var newline := IndexOfNewline(bytes);
    if newline == |bytes| {
      lines, tail := [], bytes;
    } else {
      hide IndexOfNewline;
      var raw := bytes[..newline];
      var crlf := raw != [] && raw[|raw| - 1] == 0x0d;
      var line := Line(if crlf then raw[..|raw| - 1] else raw, crlf);
      var more;
      more, tail := EveryBufferHasLines(bytes[newline + 1..]);
      lines := [line] + more;
      assert forall b <- line.payload :: b in raw;
      assert BytesOf(line) == raw + [NEWLINE];
      assert bytes == BytesOf(line) + bytes[newline + 1..];
      assert lines[1..] == more;
    }
  }

  lemma FailKeepsHandled(c: Client)
    ensures Fail(c).handled == c.handled
  {
  }

  lemma HandleRecords(c: Client, m: Message)
    ensures Handle(c, m).handled == c.handled + [m]
  {
  }

  // ---- Bookkeeping over whole runs ----

  datatype Event =
    | CallRequest(need: Phase)
    | RequestTimeout(id: int)
    | RequestWriteFailed(id: int)
    | Stdout(chunk: seq<Byte>)
    | CallWait(loginId: string, signal: bool, aborted: bool)
    | Aborted(waiter: nat)
    | StartBegins
    | StartEnds(ok: bool)
    | StopBegins
    | StopEnds(exited: bool)
    | RuntimeFailed
    | ProcessExited

  function Step(c: Client, e: Event, decode: Decoder): Client {
    match e
    case CallRequest(need) => Request(c, need)
    case RequestTimeout(id) => TimeoutFires(c, id)
    case RequestWriteFailed(id) => WriteFailed(c, id)
    case Stdout(chunk) => Consume(c, chunk, decode)
    case CallWait(loginId, signal, aborted) => WaitForLogin(c, loginId, signal, aborted)
    case Aborted(w) => AbortFires(c, w)
    case StartBegins => BeginStart(c)
    case StartEnds(ok) => FinishStart(c, ok)
    case StopBegins => BeginStop(c)
    case StopEnds(exited) => FinishStop(c, exited)
    case RuntimeFailed => Fail(c)
    case ProcessExited => ChildExited(c)
  }

  function Run(c: Client, events: seq<Event>, decode: Decoder): Client
    decreases |events|
  {
    if events == [] then c else Run(Step(c, events[0], decode), events[1..], decode)
  }

  /** A request id is in the table, with a live timer, exactly while it has not been settled. */
  ghost predicate RequestBooks(c: Client) {
    && c.timers == c.pending
    && c.nextRequestId >= 1
    && (forall id :: id in c.pending ==> 1 <= id < c.nextRequestId)
    && forall id: int :: c.requestsSettled[id] ==
         if 1 <= id < c.nextRequestId && id !in c.pending then 1 else 0
  }

  ghost predicate WaiterTable(waiters: map<string, set<nat>>, listeners: map<nat, string>, next: nat) {
    && (forall loginId <- waiters :: waiters[loginId] != {})
    && (forall a <- waiters, b <- waiters, w: nat :: w in waiters[a] && w in waiters[b] ==> a == b)
    && (forall a <- waiters, w <- waiters[a] :: w < next)
    && (forall w <- listeners :: listeners[w] in waiters && w in waiters[listeners[w]])
  }

  /** A login waiter is in the table exactly while it has not been settled. */
  ghost predicate WaiterBooks(c: Client) {
    && WaiterTable(c.waiters, c.listeners, c.nextWaiter)
    && forall w: nat :: c.waitersSettled[w] ==
         if w < c.nextWaiter && w !in AllWaiting(c.waiters) then 1 else 0
  }

  function IdsIn(s: seq<Completion>): set<string> {
    set c <- s :: c.loginId
  }

  /** The history's last completion of each login id, oldest first. */
  function Latest(history: seq<Completion>): seq<Completion> {
    if history == [] then []
    else if history[0].loginId in IdsIn(history[1..]) then Latest(history[1..])
    else [history[0]] + Latest(history[1..])
  }

  ghost predicate CacheBooks(c: Client) {
    c.completions == KeepNewest(Latest(c.history))
  }

  ghost predicate Books(c: Client) {
    RequestBooks(c) && WaiterBooks(c) && CacheBooks(c)
  }

  lemma KeepsSettleRequest(c: Client, id: int)
    requires RequestBooks(c) && id in c.pending
    ensures RequestBooks(SettleRequest(c, id))
  {
  }

  lemma KeepsWaitForLogin(c: Client, loginId: string, signal: bool, aborted: bool)
    requires WaiterBooks(c)
    ensures WaiterBooks(WaitForLogin(c, loginId, signal, aborted))
  {
    var d := WaitForLogin(c, loginId, signal, aborted);
    var w := c.nextWaiter;
    assert w !in AllWaiting(c.waiters);
    EnterWaiter(c.waiters, c.listeners, w, loginId);
    if d.waiters == c.waiters {
      assert d.waitersSettled == c.waitersSettled + multiset{w};
    }
  }

  lemma EnterWaiter(waiters: map<string, set<nat>>, listeners: map<nat, string>, w: nat, loginId: string)
    requires WaiterTable(waiters, listeners, w)
    ensures var entered := waiters[loginId := (if loginId in waiters then waiters[loginId] else {}) + {w}];
      && WaiterTable(entered, listeners, w + 1)
      && WaiterTable(entered, listeners[w := loginId], w + 1)
      && WaiterTable(waiters, listeners, w + 1)
      && entered != waiters
      && AllWaiting(entered) == AllWaiting(waiters) + {w}
  {
    var entered := waiters[loginId := (if loginId in waiters then waiters[loginId] else {}) + {w}];
    assert w in entered[loginId];
    EnteredWait(waiters, w, loginId);
    hide AllWaiting;
  }

  lemma EnteredWait(waiters: map<string, set<nat>>, w: nat, loginId: string)
    ensures var entered := waiters[loginId := (if loginId in waiters then waiters[loginId] else {}) + {w}];
      AllWaiting(entered) == AllWaiting(waiters) + {w}
  {
    var entered := waiters[loginId := (if loginId in waiters then waiters[loginId] else {}) + {w}];
    assert w in entered[loginId];
    forall v: nat ensures v in AllWaiting(entered) <==> v in AllWaiting(waiters) || v == w {
      if v in AllWaiting(waiters) {
        var k :| k in waiters && v in waiters[k];
        assert k in entered && v in entered[k];
      }
    }
  }

  /** Whoever waits for `loginId` and is in `gone` leaves; an emptied entry goes too. */
  function Leave(waiters: map<string, set<nat>>, loginId: string, gone: set<nat>): map<string, set<nat>>
    requires loginId in waiters
  {
    var left := waiters[loginId] - gone;
    if left == {} then waiters - {loginId} else waiters[loginId := left]
  }

  lemma LeaveKeepsTable(waiters: map<string, set<nat>>, listeners: map<nat, string>, next: nat, loginId: string,
      gone: set<nat>)
    requires WaiterTable(waiters, listeners, next) && loginId in waiters && gone <= waiters[loginId]
    ensures WaiterTable(Leave(waiters, loginId, gone), listeners - gone, next)
  {
    var left := Leave(waiters, loginId, gone);
    forall w <- listeners - gone ensures listeners[w] in left && w in left[listeners[w]] {
      assert listeners[w] == loginId ==> w in waiters[loginId] - gone;
    }
  }

  lemma LeaveIsGone(waiters: map<string, set<nat>>, listeners: map<nat, string>, next: nat, loginId: string,
      gone: set<nat>)
    requires WaiterTable(waiters, listeners, next) && loginId in waiters && gone <= waiters[loginId]
    ensures AllWaiting(Leave(waiters, loginId, gone)) == AllWaiting(waiters) - gone
    ensures gone <= AllWaiting(waiters)
  {
    var left := Leave(waiters, loginId, gone);
    forall v: nat ensures v in AllWaiting(left) <==> v in AllWaiting(waiters) && v !in gone {
      if v in AllWaiting(waiters) && v !in gone {
        var k :| k in waiters && v in waiters[k];
        assert k == loginId ==> v in waiters[loginId] - gone;
        assert k in left && v in left[k];
      }
    }
  }

  /** Waiters that leave are settled once, and the books still balance. */
  lemma LeaveKeepsBooks(c: Client, d: Client, loginId: string, gone: set<nat>)
    requires WaiterBooks(c) && loginId in c.waiters && gone <= c.waiters[loginId]
    requires d.waiters == Leave(c.waiters, loginId, gone) && d.listeners == c.listeners - gone
    requires d.nextWaiter == c.nextWaiter && d.waitersSettled == c.waitersSettled + multiset(gone)
    ensures WaiterBooks(d)
  {
    LeaveKeepsTable(c.waiters, c.listeners, c.nextWaiter, loginId, gone);
    LeaveIsGone(c.waiters, c.listeners, c.nextWaiter, loginId, gone);
    AllBelow(c.waiters, c.listeners, c.nextWaiter);
    hide Leave, AllWaiting, WaiterTable;
  }

  lemma AllBelow(waiters: map<string, set<nat>>, listeners: map<nat, string>, next: nat)
    requires WaiterTable(waiters, listeners, next)
    ensures forall w <- AllWaiting(waiters) :: w < next
  {
  }

  lemma KeepsAbortFires(c: Client, w: nat)
    requires WaiterBooks(c)
    ensures WaiterBooks(AbortFires(c, w))
  {
    if w in c.listeners {
      hide AllWaiting;
      var loginId := c.listeners[w];
      assert loginId in c.waiters && w in c.waiters[loginId];
      assert multiset({w}) == multiset{w};
      LeaveKeepsBooks(c, AbortFires(c, w), loginId, {w});
    }
  }

  lemma KeepsComplete(c: Client, completion: Completion)
    requires WaiterBooks(c)
    ensures WaiterBooks(Complete(c, completion))
  {
    hide KeepNewest, Without, AllWaiting, WaiterTable;
    var loginId := completion.loginId;
    if loginId in c.waiters {
      LeaveKeepsBooks(c, Complete(c, completion), loginId, c.waiters[loginId]);
    } else {
      assert c.waiters - {loginId} == c.waiters && c.listeners - {} == c.listeners;
    }
  }

  lemma KeepsRejectAll(c: Client)
    requires RequestBooks(c) && WaiterBooks(c)
    ensures RequestBooks(RejectAll(c)) && WaiterBooks(RejectAll(c))
  {
    var d := RejectAll(c);
    assert AllWaiting(d.waiters) == {};
    assert d.listeners == map[] by {
      forall w <- c.listeners ensures w in AllWaiting(c.waiters) {
      }
    }
  }

  lemma KeepsCache(c: Client, completion: Completion)
    requires CacheBooks(c)
    ensures CacheBooks(Complete(c, completion))
  {
    LatestOfOneMore(c.history, completion);
    LatestIsDistinct(c.history);
    DropThenRemove(Latest(c.history), completion);
  }

  lemma {:induction false} LatestOfOneMore(history: seq<Completion>, last: Completion)
    ensures Latest(history + [last]) == Without(Latest(history), last.loginId) + [last]
  {
    if history == [] {
      assert history + [last] == [last];
    } else {
      var first, rest := history[0], history[1..];
      assert (history + [last])[1..] == rest + [last];
      LatestOfOneMore(rest, last);
      LatestIsDistinct(rest);
      IdsOfOneMore(rest, last);
      LatestKeepsFirst(first, rest, last);
    }
  }

  lemma IdsOfOneMore(rest: seq<Completion>, last: Completion)
    ensures IdsIn(rest + [last]) == IdsIn(rest) + {last.loginId}
  {
  }

  /** Putting an older completion in front commutes with dropping the last one's id. */
  lemma LatestKeepsFirst(first: Completion, rest: seq<Completion>, last: Completion)
    requires IdsIn(Latest(rest)) == IdsIn(rest)
    ensures first.loginId !in IdsIn(rest) && first.loginId != last.loginId ==>
      Without([first] + Latest(rest), last.loginId) == [first] + Without(Latest(rest), last.loginId)
    ensures first.loginId !in IdsIn(rest) && first.loginId == last.loginId ==>
      Without([first] + Latest(rest), last.loginId) == Without(Latest(rest), last.loginId)
  {
    assert ([first] + Latest(rest))[1..] == Latest(rest);
  }

  ghost predicate DistinctIds(s: seq<Completion>) {
    forall i, j :: 0 <= i < j < |s| ==> s[i].loginId != s[j].loginId
  }

  lemma {:induction false} WithoutIs(s: seq<Completion>, loginId: string)
    ensures forall x :: x in Without(s, loginId) <==> x in s && x.loginId != loginId
    ensures (forall x <- s :: x.loginId != loginId) ==> Without(s, loginId) == s
  {
    if s != [] {
      WithoutIs(s[1..], loginId);
      assert s == [s[0]] + s[1..];
    }
  }

  lemma {:induction false} WithoutAppend(s: seq<Completion>, t: seq<Completion>, loginId: string)
    ensures Without(s + t, loginId) == Without(s, loginId) + Without(t, loginId)
  {
    if s == [] {
      assert s + t == t;
    } else {
      assert (s + t)[1..] == s[1..] + t;
      WithoutAppend(s[1..], t, loginId);
    }
  }

  lemma IdsOfFirst(first: Completion, rest: seq<Completion>)
    ensures IdsIn([first] + rest) == {first.loginId} + IdsIn(rest)
    ensures DistinctIds(rest) && first.loginId !in IdsIn(rest) ==> DistinctIds([first] + rest)
  {
    var all := [first] + rest;
    assert all == [first] + rest;
    forall x <- rest ensures x.loginId in IdsIn(rest) {
    }
    forall j | 0 <= j < |rest| ensures rest[j].loginId in IdsIn(rest) {
      assert rest[j] in rest;
    }
  }

  lemma {:induction false} LatestIsDistinct(history: seq<Completion>)
    ensures DistinctIds(Latest(history))
    ensures IdsIn(Latest(history)) == IdsIn(history)
    ensures |IdsIn(history)| == |Latest(history)|
  {
    if history == [] {
      assert DistinctIds([]);
    } else {
      hide IdsIn, DistinctIds;
      var first, rest := history[0], history[1..];
      LatestIsDistinct(rest);
      assert history == [first] + rest;
      IdsOfFirst(first, rest);
      IdsOfFirst(first, Latest(rest));
      if first.loginId in IdsIn(rest) {
        assert {first.loginId} + IdsIn(rest) == IdsIn(rest);
      }
    }
  }

  /** Evicting before and after a re-completion leaves the same newest entries. */
  lemma DropThenRemove(latest: seq<Completion>, x: Completion)
    requires DistinctIds(latest)
    ensures KeepNewest(Without(KeepNewest(latest), x.loginId) + [x])
      == KeepNewest(Without(latest, x.loginId) + [x])
  {
    if |latest| > MAX_COMPLETIONS {
      var k := |latest| - MAX_COMPLETIONS;
      var older, newest := latest[..k], latest[k..];
      assert latest == older + newest;
      WithoutAppend(older, newest, x.loginId);
      OneIdGoes(newest, x.loginId);
      OneIdGoes(older, x.loginId);
      var kept := Without(newest, x.loginId) + [x];
      NewestOfLonger(Without(older, x.loginId), kept);
      if |Without(newest, x.loginId)| < MAX_COMPLETIONS {
        assert |kept| == MAX_COMPLETIONS;
      }
      assert Without(latest, x.loginId) + [x] == Without(older, x.loginId) + kept;
    }
  }

  lemma NewestOfLonger(older: seq<Completion>, newer: seq<Completion>)
    requires |newer| >= MAX_COMPLETIONS
    ensures KeepNewest(older + newer) == KeepNewest(newer)
  {
  }

  lemma {:induction false} OneIdGoes(s: seq<Completion>, loginId: string)
    requires DistinctIds(s)
    ensures |s| - 1 <= |Without(s, loginId)| <= |s|
  {
    if s != [] {
      if s[0].loginId == loginId {
        forall x <- s[1..] ensures x.loginId != loginId {
        }
        WithoutIs(s[1..], loginId);
      } else {
        OneIdGoes(s[1..], loginId);
      }
    }
  }

  lemma KeepsHandle(c: Client, m: Message)
    requires Books(c)
    ensures Books(Handle(c, m))
  {
    hide Complete, WaiterTable, KeepNewest, Latest;
    var d := c.(handled := c.handled + [m]);
    if m.Response? && m.id in d.pending {
      KeepsSettleRequest(d, m.id);
    }
    if m.LoginCompleted? {
      KeepsComplete(d, m.completion);
      KeepsCache(d, m.completion);
      CompleteLeavesRequests(d, m.completion);
    }
  }

  lemma CompleteLeavesRequests(c: Client, completion: Completion)
    ensures RequestBooks(c) ==> RequestBooks(Complete(c, completion))
  {
  }

  lemma KeepsFail(c: Client)
    requires Books(c)
    ensures Books(Fail(c)) && Books(RejectAll(c.(phase := Failed))) && Books(RejectAll(c.(phase := Stopping)))
  {
    hide RejectAll, WaiterTable, KeepNewest, Latest;
    KeepsRejectAll(c.(phase := Failed));
    KeepsRejectAll(c.(phase := Stopping));
    RejectAllLeavesCache(c.(phase := Failed));
    RejectAllLeavesCache(c.(phase := Stopping));
  }

  lemma RejectAllLeavesCache(c: Client)
    ensures CacheBooks(c) ==> CacheBooks(RejectAll(c))
  {
  }

  lemma {:induction false} KeepsDrain(c: Client, decode: Decoder)
    requires Books(c)
    ensures Books(Drain(c, decode))
    decreases |c.buffer|
  {
    hide Books, Handle, Fail;
    var newline := IndexOfNewline(c.buffer);
    KeepsFail(c);
    if newline < |c.buffer| {
      var d := c.(buffer := c.buffer[newline + 1..]);
      BufferIsNoBook(c, d.buffer);
      KeepsFail(d);
      var line := decode(StripReturn(c.buffer[..newline]));
      if line.Some? {
        KeepsHandle(d, line.value);
        HandleIgnoresBuffer(d, line.value, []);
        KeepsDrain(Handle(d, line.value), decode);
      }
    }
  }

  lemma BufferIsNoBook(c: Client, buffer: seq<Byte>)
    ensures Books(c) <==> Books(c.(buffer := buffer))
  {
  }

  lemma StepKeepsBooks(c: Client, e: Event, decode: Decoder)
    requires Books(c)
    ensures Books(Step(c, e, decode))
  {
    hide WaiterTable, KeepNewest, RejectAll, Drain, WaitForLogin, AbortFires;
    match e {
      case CallRequest(_) =>
      case RequestTimeout(id) =>
        if id in c.timers { KeepsSettleRequest(c, id); }
      case RequestWriteFailed(id) =>
        if id in c.pending { KeepsSettleRequest(c, id); }
      case Stdout(chunk) =>
        BufferIsNoBook(c, c.buffer + chunk);
        KeepsDrain(c.(buffer := c.buffer + chunk), decode);
      case CallWait(loginId, signal, aborted) =>
        KeepsWaitForLogin(c, loginId, signal, aborted);
        WaitLeavesOthers(c, loginId, signal, aborted);
      case Aborted(w) =>
        KeepsAbortFires(c, w);
        AbortLeavesOthers(c, w);
      case StartBegins =>
      case StartEnds(_) =>
      case StopBegins => KeepsFail(c);
      case StopEnds(_) => EmptyCache(FinishStop(c, true));
      case RuntimeFailed => KeepsFail(c);
      case ProcessExited => KeepsFail(c);
    }
  }

  lemma EmptyCache(c: Client)
    requires c.completions == [] && c.history == []
    ensures CacheBooks(c)
  {
  }

  lemma WaitLeavesOthers(c: Client, loginId: string, signal: bool, aborted: bool)
    ensures RequestBooks(c) ==> RequestBooks(WaitForLogin(c, loginId, signal, aborted))
    ensures CacheBooks(c) ==> CacheBooks(WaitForLogin(c, loginId, signal, aborted))
  {
  }

  lemma AbortLeavesOthers(c: Client, w: nat)
    ensures RequestBooks(c) ==> RequestBooks(AbortFires(c, w))
    ensures CacheBooks(c) ==> CacheBooks(AbortFires(c, w))
  {
  }

  /** The books balance after every run of calls, chunks, timeouts, aborts and failures. */
  lemma {:induction false} RunKeepsBooks(c: Client, events: seq<Event>, decode: Decoder)
    requires Books(c)
    ensures Books(Run(c, events, decode))
    decreases |events|
  {
    hide Books, Step;
    if events != [] {
      StepKeepsBooks(c, events[0], decode);
      RunKeepsBooks(Step(c, events[0], decode), events[1..], decode);
    }
  }

  /**
   * In every reachable state each issued request id and each waiter is settled exactly once
   * if it has left its table and not at all while it is in it.
   */
  lemma SettledExactlyOnce(events: seq<Event>, decode: Decoder, id: int, w: nat)
    ensures var c := Run(NewClient(), events, decode);
      && (id in c.pending ==> c.requestsSettled[id] == 0)
      && (1 <= id < c.nextRequestId && id !in c.pending ==> c.requestsSettled[id] == 1)
      && (w in AllWaiting(c.waiters) ==> c.waitersSettled[w] == 0)
      && (w < c.nextWaiter && w !in AllWaiting(c.waiters) ==> c.waitersSettled[w] == 1)
  {
    hide Run;
    RunKeepsBooks(NewClient(), events, decode);
  }

  // ---- The cache, characterised without the cache ----

  /** `history[i]` is the last of its id and fewer than 32 other ids completed since. */
  ghost predicate RecentAt(history: seq<Completion>, i: nat) {
    && i < |history|
    && history[i].loginId !in IdsIn(history[i + 1..])
    && |IdsIn(history[i + 1..])| < 32
  }

  lemma {:induction false} NewestAreRecent(history: seq<Completion>, c: Completion)
    ensures c in KeepNewest(Latest(history)) <==> exists i: nat :: RecentAt(history, i) && history[i] == c
  {
    if history != [] {
      var rest := history[1..];
      NewestAreRecent(rest, c);
      LatestIsDistinct(rest);
      forall i: nat ensures RecentAt(history, i + 1) <==> RecentAt(rest, i) {
        assert i < |rest| ==> history[i + 2..] == rest[i + 1..];
      }
      if i: nat :| RecentAt(history, i) && history[i] == c {
        assert i > 0 ==> RecentAt(rest, i - 1) && rest[i - 1] == c;
      }
      if i: nat :| RecentAt(rest, i) && rest[i] == c {
        assert RecentAt(history, i + 1) && history[i + 1] == c;
      }
      if history[0].loginId !in IdsIn(rest) && |Latest(rest)| < MAX_COMPLETIONS {
        assert RecentAt(history, 0);
      } else if |Latest(rest)| >= MAX_COMPLETIONS {
        NewestOfLonger([history[0]], Latest(rest));
      }
    }
  }

  /**
   * The completion cache is exact: after any run, a completion is cached if and only if it
   * is its login id's last one in the history and fewer than 32 other ids completed after it.
   */
  lemma CacheIsMostRecent(events: seq<Event>, decode: Decoder, completion: Completion)
    ensures var c := Run(NewClient(), events, decode);
      completion in c.completions <==>
      exists i: nat :: RecentAt(c.history, i) && c.history[i] == completion
  {
    hide Run, Latest, KeepNewest, RecentAt;
    var c := Run(NewClient(), events, decode);
    EmptyCache(NewClient());
    RunKeepsBooks(NewClient(), events, decode);
    NewestAreRecent(c.history, completion);
  }
}
