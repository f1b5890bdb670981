/** The protocol client object: its handlers and loops, each proved against its value. */
module AuthClientRuntime {
  import opened Basics
  import opened AuthClient

  class AuthClientRuntime {
    const decode: Decoder
    var phase: Phase
    var stdoutBuffer: seq<Byte>
    var handled: seq<Message>
    var nextRequestId: int
    var pending: set<int>
    var timers: set<int>
    var requestsSettled: multiset<int>
    var loginWaiters: map<string, set<nat>>
    var listeners: map<nat, string>
    var nextWaiter: nat
    var waitersSettled: multiset<nat>
    var completions: seq<Completion>
    ghost var history: seq<Completion>

    ghost function View(): Client
      reads this
    {
      Client(phase, stdoutBuffer, handled, nextRequestId, pending, timers, requestsSettled,
        loginWaiters, listeners, nextWaiter, waitersSettled, completions, history)
    }

    ghost predicate Valid()
      reads this
    {
      Books(View())
    }

    constructor (decode: Decoder)
      ensures Valid() && View() == NewClient() && this.decode == decode
    {
      this.decode := decode;
      phase, stdoutBuffer, handled := Idle, [], [];
      nextRequestId, pending, timers, requestsSettled := 1, {}, {}, multiset{};
      loginWaiters, listeners, nextWaiter, waitersSettled := map[], map[], 0, multiset{};
      completions, history := [], [];
      new;
      EmptyCache(View());
    }

    /** Enters a request with its timer; None when it is refused. */
    method RequestInternal(need: Phase) returns (id: Option<int>)
      requires Valid()
      modifies this
      ensures Valid() && View() == Request(old(View()), need)
      ensures id.Some? ==> id.value !in old(pending) && pending == old(pending) + {id.value}
    {
      StepKeepsBooks(View(), CallRequest(need), decode);
      if phase != need || !SafeInteger(nextRequestId) || nextRequestId < 1 {
        return None;
      }
      id := Some(nextRequestId);
      nextRequestId := nextRequestId + 1;
      pending := pending + {id.value};
      timers := timers + {id.value};
    }

    method OnRequestTimeout(id: int)
      requires Valid()
      modifies this
      ensures Valid() && View() == TimeoutFires(old(View()), id)
    {
      StepKeepsBooks(View(), RequestTimeout(id), decode);
      if id !in timers {
        return;
      }
      timers := timers - {id};
      pending := pending - {id};
      requestsSettled := requestsSettled + multiset{id};
    }

    method OnWriteFailed(id: int)
      requires Valid()
      modifies this
      ensures Valid() && View() == WriteFailed(old(View()), id)
    {
      StepKeepsBooks(View(), RequestWriteFailed(id), decode);
      if id !in pending {
        return;
      }
      timers := timers - {id};
      pending := pending - {id};
      requestsSettled := requestsSettled + multiset{id};
    }

    method HandleResponse(id: int)
      modifies this
      ensures View() == Respond(old(View()), id)
    {
      if id !in pending {
        return;
      }
      timers := timers - {id};
      pending := pending - {id};
      requestsSettled := requestsSettled + multiset{id};
    }

    /** Moves the id to the newest place, evicts the oldest entries and resolves the waiters. */
    method RecordCompletion(completion: Completion)
      modifies this
      ensures View() == Complete(old(View()), completion)
    {
      hide KeepNewest, Without;
      completions := Without(completions, completion.loginId) + [completion];
      history := history + [completion];
      EvictOldest();
      ResolveWaiters(completion.loginId);
    }

    method ResolveWaiters(loginId: string)
      modifies this`loginWaiters, this`listeners, this`waitersSettled
      ensures var waiting := WaitersOf(old(View()), loginId);
        && loginWaiters == old(loginWaiters) - {loginId}
        && listeners == old(listeners) - waiting
        && waitersSettled == old(waitersSettled) + multiset(waiting)
    {
      if loginId in loginWaiters {
        var waiting := loginWaiters[loginId];
        loginWaiters := loginWaiters - {loginId};
        SettleWaiters(waiting);
      }
    }

    method EvictOldest()
      modifies this`completions
      ensures completions == KeepNewest(old(completions))
    {
      ghost var grown := completions;
      while |completions| > MAX_COMPLETIONS
        invariant KeepNewest(completions) == KeepNewest(grown)
        decreases |completions|
      {
        completions := completions[1..];
      }
    }

    /** Takes the given waiters' listeners off and settles each of them once. */
    method SettleWaiters(waiting: set<nat>)
      modifies this`listeners, this`waitersSettled
      ensures listeners == old(listeners) - waiting
      ensures waitersSettled == old(waitersSettled) + multiset(waiting)
    {
      var rest := waiting;
      while rest != {}
        invariant rest <= waiting
        invariant listeners == old(listeners) - (waiting - rest)
        invariant waitersSettled == old(waitersSettled) + multiset(waiting - rest)
        decreases rest
      {
        var w :| w in rest;
        assert waiting - (rest - {w}) == (waiting - rest) + {w};
        listeners := listeners - {w};
        waitersSettled := waitersSettled + multiset{w};
        rest := rest - {w};
      }
      assert waiting - {} == waiting;
    }

    method HandleMessage(m: Message)
      requires Valid()
      modifies this
      ensures Valid() && View() == Handle(old(View()), m)
    {
      KeepsHandle(View(), m);
      handled := handled + [m];
      match m
      case ServerRequest =>
      case Response(id) => HandleResponse(id);
      case LoginCompleted(completion) => RecordCompletion(completion);
      case OtherNotification =>
    }

    /** Rejects every pending request and every login waiter. */
    method RejectAllPending()
      requires WaiterBooks(View())
      modifies this
      ensures View() == RejectAll(old(View()))
    {
      hide AllWaiting;
      RejectRequests();
      RejectWaiters();
    }

    method RejectRequests()
      modifies this`pending, this`timers, this`requestsSettled
      ensures pending == {} && timers == old(timers) - old(pending)
      ensures requestsSettled == old(requestsSettled) + multiset(old(pending))
    {
      var rest: set<int> := pending;
      while rest != {}
        invariant rest <= old(pending)
        invariant timers == old(timers) - (old(pending) - rest)
        invariant requestsSettled == old(requestsSettled) + multiset(old(pending) - rest)
        decreases rest
      {
        Inhabited(rest);
        var id: int :| id in rest;
        assert old(pending) - (rest - {id}) == (old(pending) - rest) + {id};
        timers := timers - {id};
        requestsSettled := requestsSettled + multiset{id};
        rest := rest - {id};
      }
      assert old(pending) - {} == old(pending);
      pending := {};
    }

    method RejectWaiters()
      requires WaiterTable(loginWaiters, listeners, nextWaiter)
      modifies this`loginWaiters, this`listeners, this`waitersSettled
      ensures loginWaiters == map[]
      ensures listeners == old(listeners) - AllWaiting(old(loginWaiters))
      ensures waitersSettled == old(waitersSettled) + multiset(AllWaiting(old(loginWaiters)))
    {
      hide AllWaiting, WaiterTable;
      ghost var table, heard := loginWaiters, listeners;
      var loginIds := loginWaiters.Keys;
      ghost var done := AllWaiting(table - loginIds);
      NobodyWaiting(table - loginIds);
      while loginIds != {}
        invariant loginWaiters == table && loginIds <= table.Keys
        invariant done == AllWaiting(table - loginIds)
        invariant listeners == heard - done
        invariant waitersSettled == old(waitersSettled) + multiset(done)
        decreases loginIds
      {
        var loginId: string :| loginId in loginIds;
        MoreWaiting(table, heard, nextWaiter, loginIds, loginId);
        var waiting := loginWaiters[loginId];
        SettleWaiters(waiting);
        DropBoth(heard, done, waiting);
        loginIds := loginIds - {loginId};
        done := done + waiting;
      }
      assert table - {} == table;
      loginWaiters := map[];
    }

    static lemma DropBoth(heard: map<nat, string>, done: set<nat>, more: set<nat>)
      ensures heard - done - more == heard - (done + more)
      ensures done !! more ==> multiset(done + more) == multiset(done) + multiset(more)
    {
    }

    static lemma NobodyWaiting(waiters: map<string, set<nat>>)
      ensures waiters.Keys == {} ==> AllWaiting(waiters) == {}
    {
    }

    static lemma MoreWaiting(waiters: map<string, set<nat>>, listeners: map<nat, string>, next: nat,
        loginIds: set<string>, loginId: string)
      requires loginId in loginIds && loginIds <= waiters.Keys
      requires WaiterTable(waiters, listeners, next)
      ensures AllWaiting(waiters - (loginIds - {loginId})) == AllWaiting(waiters - loginIds) + waiters[loginId]
      ensures AllWaiting(waiters - loginIds) !! waiters[loginId]
    {
      var before, now := waiters - loginIds, waiters - (loginIds - {loginId});
      forall w: nat ensures w in AllWaiting(now) <==> w in AllWaiting(before) || w in waiters[loginId] {
        if w in AllWaiting(now) {
          var k :| k in now && w in now[k];
          assert k != loginId ==> k in before && w in before[k];
        }
        if w in AllWaiting(before) {
          var k :| k in before && w in before[k];
          assert k in now && w in now[k];
        }
        if w in waiters[loginId] {
          assert loginId in now && w in now[loginId];
        }
      }
    }

    method FailRuntime()
      requires Valid()
      modifies this
      ensures Valid() && View() == Fail(old(View()))
    {
      KeepsFail(View());
      if phase == Failed || phase == Stopped {
        return;
      }
      phase := Failed;
      RejectAllPending();
    }

    /** stdout data handler: cuts complete lines off the buffer until none is left or one fails. */
    method ConsumeStdout(chunk: seq<Byte>)
      requires Valid()
      modifies this
      ensures Valid() && View() == Consume(old(View()), chunk, decode)
    {
      hide Books, Handle, Fail, StripReturn, IndexOfNewline;
      ghost var end := Consume(View(), chunk, decode);
      if phase == Failed || phase == Stopped {
        return;
      }
      BufferIsNoBook(View(), stdoutBuffer + chunk);
      stdoutBuffer := stdoutBuffer + chunk;
      while true
        invariant Valid() && !Dead(View())
        invariant Drain(View(), decode) == end
        decreases |stdoutBuffer|
      {
        var newline := IndexOfNewline(stdoutBuffer);
        if newline == |stdoutBuffer| {
          break;
        }
        var raw := stdoutBuffer[..newline];
        BufferIsNoBook(View(), stdoutBuffer[newline + 1..]);
        stdoutBuffer := stdoutBuffer[newline + 1..];
        if |raw| < 1 || |raw| > MAX_PROTOCOL_LINE_BYTES {
          FailRuntime();
          return;
        }
        var message := decode(StripReturn(raw));
        if message.None? {
          FailRuntime();
          return;
        }
        HandleIgnoresBuffer(View(), message.value, stdoutBuffer);
        HandleMessage(message.value);
      }
      if |stdoutBuffer| > MAX_PROTOCOL_LINE_BYTES {
        FailRuntime();
      }
    }

    /** waitForLogin: its promise is settled at once or entered in the table. */
    method WaitForLoginCompletion(loginId: string, signal: bool, aborted: bool) returns (w: nat, entered: bool)
      requires Valid()
      modifies this
      ensures Valid() && View() == WaitForLogin(old(View()), loginId, signal, aborted)
      ensures w == old(nextWaiter)
      ensures entered <==> w in AllWaiting(loginWaiters)
    {
      hide CacheBooks, RequestBooks, Lookup;
      StepKeepsBooks(View(), CallWait(loginId, signal, aborted), decode);
      assert WaiterTable(loginWaiters, listeners, nextWaiter);
      w := nextWaiter;
      nextWaiter := nextWaiter + 1;
      if Lookup(completions, loginId).Some? || phase != Ready || (signal && aborted) {
        waitersSettled := waitersSettled + multiset{w};
        return w, false;
      }
      if signal {
        listeners := listeners[w := loginId];
      }
      var waiting := if loginId in loginWaiters then loginWaiters[loginId] else {};
      loginWaiters := loginWaiters[loginId := waiting + {w}];
      assert loginId in loginWaiters && w in loginWaiters[loginId];
      return w, true;
    }

    method OnAbort(w: nat)
      requires Valid()
      modifies this
      ensures Valid() && View() == AbortFires(old(View()), w)
    {
      hide WaiterTable, CacheBooks, RequestBooks;
      StepKeepsBooks(View(), Aborted(w), decode);
      if w !in listeners {
        return;
      }
      var loginId := listeners[w];
      if loginId in loginWaiters {
        var waiting := loginWaiters[loginId] - {w};
        loginWaiters := if waiting == {} then loginWaiters - {loginId} else loginWaiters[loginId := waiting];
      }
      listeners := listeners - {w};
      waitersSettled := waitersSettled + multiset{w};
    }

    /** stop() up to its await, and after it. */
    method StopUntilExit()
      requires Valid()
      modifies this
      ensures Valid() && View() == BeginStop(old(View()))
    {
      KeepsFail(View());
      if phase == Stopped {
        return;
      }
      phase := Stopping;
      RejectAllPending();
    }

    method StopAfterExit(exited: bool)
      requires Valid()
      modifies this
      ensures Valid() && View() == AuthClient.FinishStop(old(View()), exited)
    {
      StepKeepsBooks(View(), StopEnds(exited), decode);
      if !exited {
        phase := Failed;
        return;
      }
      stdoutBuffer := [];
      completions, history := [], [];
      phase := Stopped;
    }
  }
}
