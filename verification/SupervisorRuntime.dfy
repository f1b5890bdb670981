/**
 * The supervisor's instance record, updated in place: each method is the code of one
 * asynchronous method between two awaits, proved against the instance's value.
 */
module SupervisorRuntime {
  import opened Basics
  import opened Supervisor

  class RuntimeInstance {
    var state: Phase
    var client: bool
    var loginId: Option<string>
    var authUrl: Option<string>
    var stopCompleted: bool
    var shuttingDown: bool
    // Where each asynchronous method is suspended, and what the outside has seen.
    var start: StartStep
    var login: LoginStep
    var wait: WaitStep
    var reopen: ReopenStep
    var stop: StopStep
    var pendingReads: map<nat, Phase>
    var seen: Seen

    ghost function View(): Instance
      reads this
    {
      Instance(state, client, loginId, authUrl, stopCompleted, shuttingDown, start, login, wait, reopen, stop,
        pendingReads, seen)
    }

    ghost predicate Valid()
      reads this
    {
      Invariant(View())
    }

    constructor ()
      ensures Valid() && View() == Initial()
    {
      state, client, loginId, authUrl, stopCompleted, shuttingDown := Starting, false, None, None, false, false;
      start, login, wait, reopen, stop := Creating, NoLogin, NoWait, NoReopen, NoStop;
      pendingReads, seen := map[], Seen(false, [], false, false, None, {}, false);
      new;
      InitialHolds();
    }

    /** transition: a refused one throws; Valid() says it never happens. */
    method MoveTo(next: Phase)
      modifies this`state, this`seen
      ensures View() == Transition(old(View()), next)
    {
      if !ValidTransition(state, next) {
        seen := seen.(threw := true);
        return;
      }
      state := next;
      seen := seen.(climbed := seen.climbed + [next]);
    }

    method FailNow()
      modifies this`state, this`seen, this`authUrl
      ensures View() == Fail(old(View()))
    {
      if state == Failed || state == Stopped {
        return;
      }
      authUrl := None;
      MoveTo(Failed);
    }

    method AttemptCancel(id: string)
      modifies this`seen
      ensures View() == CancelLogin(old(View()), id)
    {
      seen := seen.(cancelled := seen.cancelled + {id});
    }

    // ---- performStart ----

    method OnClientCreated(ok: bool)
      requires Valid()
      modifies this
      ensures Valid() && View() == OnCreateClient(old(View()), ok)
    {
      hide Invariant, ValidTransition;
      StepKeepsInvariant(View(), CreateClient(ok));
      if start != Creating {
        return;
      }
      if !ok {
        CatchStart();
        return;
      }
      client := true;
      start := ClientStarting;
    }

    method OnClientStarted(ok: bool)
      requires Valid()
      modifies this
      ensures Valid() && View() == OnStartClient(old(View()), ok)
    {
      hide Invariant, ValidTransition;
      StepKeepsInvariant(View(), StartClient(ok));
      if start != ClientStarting {
        return;
      }
      if !ok {
        CatchStart();
        return;
      }
      MoveTo(Ready);
      start := StartSettled;
    }

    method CatchStart()
      modifies this
      ensures View() == StartFailed(old(View()))
    {
      if client {
        start := CleaningUp;
        return;
      }
      start := StartSettled;
      FailNow();
    }

    method OnClientCleanedUp(ok: bool)
      requires Valid()
      modifies this
      ensures Valid() && View() == OnCleanUpClient(old(View()), ok)
    {
      hide Invariant, ValidTransition;
      StepKeepsInvariant(View(), CleanUpClient(ok));
      if start != CleaningUp {
        return;
      }
      stopCompleted := ok;
      start := StartSettled;
      seen := seen.(stopSucceeded := seen.stopSucceeded || ok);
      FailNow();
    }

    // ---- performStartBrowserLogin ----

    method StartBrowserLogin()
      requires Valid()
      modifies this
      ensures Valid() && View() == OnCallLogin(old(View()))
    {
      hide Invariant, ValidTransition;
      StepKeepsInvariant(View(), CallLogin);
      if login == NoLogin && state == Ready && client {
        login := LoginRequested;
      }
    }

    method OnChallenge(id: string, url: string)
      requires Valid()
      modifies this
      ensures Valid() && View() == OnLoginChallenge(old(View()), id, url)
    {
      hide Invariant, ValidTransition;
      StepKeepsInvariant(View(), LoginChallenge(id, url));
      if login != LoginRequested {
        return;
      }
      seen := seen.(challenge := Some(id));
      if shuttingDown || state != Ready || !client {
        AttemptCancel(id);
        login := CancellingLate(id);
        return;
      }
      loginId := Some(id);
      authUrl := Some(url);
      login := Opening(id, url);
    }

    method OnChallengeRefused()
      requires Valid()
      modifies this
      ensures Valid() && View() == OnLoginRefused(old(View()))
    {
      hide Invariant, ValidTransition;
      StepKeepsInvariant(View(), LoginRefused);
      if login != LoginRequested {
        return;
      }
      login := LoginSettled;
      if !shuttingDown && state == Ready && client {
        FailNow();
      }
    }

    method OnLateCancel()
      requires Valid()
      modifies this
      ensures Valid() && View() == OnLateCancelDone(old(View()))
    {
      hide Invariant, ValidTransition;
      StepKeepsInvariant(View(), LateCancelDone);
      if login.CancellingLate? {
        login := LoginSettled;
      }
    }

    method EndLogin(id: string, url: string)
      modifies this`login, this`seen
      ensures View() == SettleLogin(old(View()), id, url)
    {
      login := LoginSettled;
      seen := seen.(held := state == WaitingUser && loginId == Some(id) && authUrl == Some(url));
    }

    method OnTrustedUrlOpened(ok: bool)
      requires Valid()
      modifies this
      ensures Valid() && View() == OnUrlOpened(old(View()), ok)
    {
      hide Invariant, ValidTransition;
      StepKeepsInvariant(View(), UrlOpened(ok));
      if !login.Opening? {
        return;
      }
      var id, url := login.loginId, login.authUrl;
      if ok && !shuttingDown && state == Ready && client && loginId == Some(id) && authUrl == Some(url) {
        MoveTo(WaitingUser);
        EndLogin(id, url);
      } else {
        AttemptCancel(id);
        login := CancellingOpened(id, url);
      }
    }

    method OnOpenedCancel()
      requires Valid()
      modifies this
      ensures Valid() && View() == OnOpenedCancelDone(old(View()))
    {
      hide Invariant, ValidTransition;
      StepKeepsInvariant(View(), OpenedCancelDone);
      if !login.CancellingOpened? {
        return;
      }
      var id, url := login.loginId, login.authUrl;
      if loginId == Some(id) {
        loginId := None;
      }
      if authUrl == Some(url) {
        authUrl := None;
      }
      if !shuttingDown && state == Ready && client {
        FailNow();
      }
      EndLogin(id, url);
    }

    // ---- performWaitForLogin ----

    method WaitForLogin()
      requires Valid()
      modifies this
      ensures Valid() && View() == OnCallWait(old(View()))
    {
      hide Invariant, ValidTransition;
      StepKeepsInvariant(View(), CallWait);
      if wait == NoWait && state == WaitingUser && client && loginId.Some? {
        wait := AwaitingLogin(loginId.value);
      }
    }

    method CatchWait()
      modifies this
      ensures View() == WaitRejected(old(View()))
    {
      wait := WaitSettled;
      if state == Stopping || state == Stopped {
        return;
      }
      loginId, authUrl := None, None;
      FailNow();
    }

    method OnLoginCompleted(id: string, success: bool)
      requires Valid()
      modifies this
      ensures Valid() && View() == OnLoginCompletion(old(View()), id, success)
    {
      hide Invariant, ValidTransition;
      StepKeepsInvariant(View(), LoginCompletion(id, success));
      if !wait.AwaitingLogin? {
        return;
      }
      if state != WaitingUser || id != wait.loginId || !success {
        CatchWait();
        return;
      }
      loginId, authUrl, wait := None, None, WaitSettled;
      MoveTo(Phase.LoginCompleted);
    }

    method OnWaitRejected()
      requires Valid()
      modifies this
      ensures Valid() && View() == OnWaitFailed(old(View()))
    {
      hide Invariant, ValidTransition;
      StepKeepsInvariant(View(), WaitFailed);
      if wait.AwaitingLogin? {
        CatchWait();
      }
    }

    // ---- reopen and readAccount ----

    method ReopenBrowserLogin()
      requires Valid()
      modifies this
      ensures Valid() && View() == OnCallReopen(old(View()))
    {
      hide Invariant, ValidTransition;
      StepKeepsInvariant(View(), CallReopen);
      if state == WaitingUser && client && loginId.Some? && authUrl.Some? && reopen == NoReopen {
        reopen := Reopening(loginId.value, authUrl.value);
      }
    }

    method OnTrustedUrlReopened(ok: bool)
      requires Valid()
      modifies this
      ensures Valid() && View() == OnUrlReopened(old(View()), ok)
    {
      hide Invariant, ValidTransition;
      StepKeepsInvariant(View(), UrlReopened(ok));
      if reopen == NoReopen {
        return;
      }
      var id, url := reopen.loginId, reopen.authUrl;
      reopen := NoReopen;
      if !ok && !shuttingDown && state == WaitingUser && client && loginId == Some(id) && authUrl == Some(url) {
        FailNow();
      }
    }

    method ReadAccount(read: nat)
      requires Valid()
      modifies this
      ensures Valid() && View() == OnCallRead(old(View()), read)
    {
      hide Invariant, ValidTransition;
      StepKeepsInvariant(View(), CallRead(read));
      if read !in pendingReads && client && Readable(state) {
        pendingReads := pendingReads[read := state];
      }
    }

    method OnAccount(read: nat, ok: bool)
      requires Valid()
      modifies this
      ensures Valid() && View() == OnAccountRead(old(View()), read, ok)
    {
      hide Invariant, ValidTransition;
      StepKeepsInvariant(View(), AccountRead(read, ok));
      if read !in pendingReads {
        return;
      }
      var before := pendingReads[read];
      pendingReads := pendingReads - {read};
      if !ok && state == before {
        FailNow();
      }
    }

    // ---- stop ----

    method CancelLoginNow()
      requires Valid()
      modifies this
      ensures Valid() && View() == OnCallCancelLogin(old(View()))
    {
      hide Invariant, ValidTransition;
      StepKeepsInvariant(View(), CallCancelLogin);
      if state == WaitingUser && client && loginId.Some? {
        Stop(true);
      }
    }

    method StopNow()
      requires Valid()
      modifies this
      ensures Valid() && View() == OnCallStop(old(View()))
    {
      hide Invariant, ValidTransition;
      StepKeepsInvariant(View(), CallStop);
      Stop(false);
    }

    method ShutDownNow()
      requires Valid()
      modifies this
      ensures Valid() && View() == OnShutDown(old(View()))
    {
      hide Invariant, ValidTransition;
      StepKeepsInvariant(View(), ShutDown);
      shuttingDown := true;
      Stop(false);
    }

    /** stopInstance: an already completed stop answers at once, a running one is shared. */
    method Stop(cancelLogin: bool)
      modifies this
      ensures View() == StopInstance(old(View()), cancelLogin)
    {
      if stopCompleted {
        if state == Failed {
          MoveTo(Stopped);
        }
        seen := seen.(stopResolved := true);
        return;
      }
      if stop != NoStop {
        return;
      }
      if state == Starting {
        stop := AwaitingStart(cancelLogin);
        return;
      }
      BeginStop(cancelLogin);
    }

    method EndStop()
      modifies this`stop, this`seen
      ensures View() == ResolveStop(old(View()))
    {
      stop := NoStop;
      seen := seen.(stopResolved := true);
    }

    method BeginStop(cancelLogin: bool)
      modifies this
      ensures View() == PerformStop(old(View()), cancelLogin)
    {
      if stopCompleted {
        EndStop();
        return;
      }
      if !client {
        stopCompleted := true;
        if state == Failed {
          MoveTo(Stopped);
        }
        EndStop();
        return;
      }
      var wasFailed := state == Failed;
      if !wasFailed {
        MoveTo(Stopping);
      }
      var id := loginId;
      loginId, authUrl := None, None;
      if cancelLogin && id.Some? {
        AttemptCancel(id.value);
        stop := StopCancelling(wasFailed);
      } else {
        stop := StoppingClient(wasFailed, false);
      }
    }

    method OnStartSettledForStop()
      requires Valid()
      modifies this
      ensures Valid() && View() == OnStartAwaited(old(View()))
    {
      hide Invariant, ValidTransition;
      StepKeepsInvariant(View(), StartAwaited);
      if stop.AwaitingStart? && start == StartSettled {
        BeginStop(stop.cancelLogin);
      }
    }

    method OnStopCancelled(ok: bool)
      requires Valid()
      modifies this
      ensures Valid() && View() == OnStopCancelDone(old(View()), ok)
    {
      hide Invariant, ValidTransition;
      StepKeepsInvariant(View(), StopCancelDone(ok));
      if stop.StopCancelling? {
        stop := StoppingClient(stop.wasFailed, !ok);
      }
    }

    method OnClientStop(ok: bool)
      requires Valid()
      modifies this
      ensures Valid() && View() == OnClientStopped(old(View()), ok)
    {
      hide Invariant, ValidTransition;
      StepKeepsInvariant(View(), ClientStopped(ok));
      if stop.StoppingClient? {
        EndClientStop(ok);
      }
    }

    method EndClientStop(ok: bool)
      requires stop.StoppingClient?
      modifies this
      ensures View() == FinishStop(old(View()), ok)
    {
      hide Transition, Fail;
      var wasFailed, failed := stop.wasFailed, stop.failed || !ok;
      stopCompleted := ok;
      seen := seen.(stopSucceeded := seen.stopSucceeded || ok);
      if failed {
        if !wasFailed {
          FailNow();
        }
        stop := NoStop;
        return;
      }
      MoveTo(Stopped);
      EndStop();
    }
  }
}
