/**
 * The supervisor field by field instead of event by event: exactly when each phase is entered,
 * and exactly what changes each field, in every state that a run can reach.
 */
module SupervisorLaws {
  import opened Basics
  import opened Supervisor

  // ---- What waiting means ----

  /** While the instance waits for its user, everything pending speaks of the held challenge. */
  ghost predicate WaitFits(s: Instance) {
    && (s.state == WaitingUser ==> s.loginId.Some? && s.authUrl.Some? && s.seen.challenge == s.loginId)
    && (s.state == WaitingUser && s.wait.AwaitingLogin? ==> s.loginId == Some(s.wait.loginId))
    && (s.state == WaitingUser && s.reopen.Reopening? ==>
          s.loginId == Some(s.reopen.loginId) && s.authUrl == Some(s.reopen.authUrl))
    && (s.wait.AwaitingLogin? ==> s.state != LoginCompleted)
    && (s.login.Opening? || s.login.CancellingOpened? ==>
          && (s.loginId.Some? ==> s.loginId == Some(s.login.loginId))
          && (s.authUrl.Some? ==> s.authUrl == Some(s.login.authUrl)))
    && (s.login != LoginSettled ==> !s.seen.held)
  }

  /** What holds in every state of every run. */
  ghost predicate Reached(s: Instance) {
    Invariant(s) && WaitFits(s)
  }

  lemma PerformKeepsWaitFits(s: Instance, cancelLogin: bool)
    requires WaitFits(s) && (s.start == StartSettled ==> s.state != Starting)
    ensures s.state != Starting ==> WaitFits(PerformStop(s, cancelLogin))
  {
  }

  lemma StopKeepsWaitFits(s: Instance, cancelLogin: bool)
    requires Fits(s) && WaitFits(s)
    ensures WaitFits(StopInstance(s, cancelLogin))
  {
    hide ReadsFit, PerformStop, WaitFits, LoginFits;
    PerformKeepsWaitFits(s, cancelLogin);
    if s.stopCompleted {
      CompletedKeepsWait(s);
    }
    AskedKeepsWait(s, cancelLogin);
  }

  lemma CompletedKeepsWait(s: Instance)
    requires WaitFits(s) && s.stopCompleted && (s.state == Failed || s.state == Stopped)
    ensures WaitFits(StopInstance(s, false)) && WaitFits(StopInstance(s, true))
  {
  }

  lemma ShutDownKeepsWait(s: Instance)
    requires Fits(s) && WaitFits(s)
    ensures Fits(s.(shuttingDown := true)) && WaitFits(s.(shuttingDown := true))
  {
  }

  lemma AskedKeepsWait(s: Instance, cancelLogin: bool)
    requires WaitFits(s)
    ensures WaitFits(s.(stop := AwaitingStart(cancelLogin)))
  {
  }

  lemma CreateClientKeepsWait(s: Instance, ok: bool)
    requires Fits(s) && WaitFits(s)
    ensures WaitFits(OnCreateClient(s, ok))
  {
    hide ReadsFit;
  }

  lemma StartClientKeepsWait(s: Instance, ok: bool)
    requires Fits(s) && WaitFits(s)
    ensures WaitFits(OnStartClient(s, ok))
  {
    hide ReadsFit;
  }

  lemma CleanUpClientKeepsWait(s: Instance, ok: bool)
    requires Fits(s) && WaitFits(s)
    ensures WaitFits(OnCleanUpClient(s, ok))
  {
    hide ReadsFit;
  }

  lemma CallLoginKeepsWait(s: Instance)
    requires Fits(s) && WaitFits(s)
    ensures WaitFits(OnCallLogin(s))
  {
    hide ReadsFit;
  }

  lemma LoginChallengeKeepsWait(s: Instance, loginId: string, authUrl: string)
    requires Fits(s) && WaitFits(s)
    ensures WaitFits(OnLoginChallenge(s, loginId, authUrl))
  {
    hide ReadsFit;
  }

  lemma LoginRefusedKeepsWait(s: Instance)
    requires Fits(s) && WaitFits(s)
    ensures WaitFits(OnLoginRefused(s))
  {
    hide ReadsFit;
  }

  lemma LateCancelDoneKeepsWait(s: Instance)
    requires Fits(s) && WaitFits(s)
    ensures WaitFits(OnLateCancelDone(s))
  {
    hide ReadsFit;
  }

  lemma UrlOpenedKeepsWait(s: Instance, ok: bool)
    requires Fits(s) && WaitFits(s)
    ensures WaitFits(OnUrlOpened(s, ok))
  {
    hide ReadsFit;
  }

  lemma OpenedCancelDoneKeepsWait(s: Instance)
    requires Fits(s) && WaitFits(s)
    ensures WaitFits(OnOpenedCancelDone(s))
  {
    hide ReadsFit;
  }

  lemma CallWaitKeepsWait(s: Instance)
    requires Fits(s) && WaitFits(s)
    ensures WaitFits(OnCallWait(s))
  {
    hide ReadsFit;
  }

  lemma LoginCompletionKeepsWait(s: Instance, loginId: string, success: bool)
    requires Fits(s) && WaitFits(s)
    ensures WaitFits(OnLoginCompletion(s, loginId, success))
  {
    hide ReadsFit;
  }

  lemma WaitFailedKeepsWait(s: Instance)
    requires Fits(s) && WaitFits(s)
    ensures WaitFits(OnWaitFailed(s))
  {
    hide ReadsFit;
  }

  lemma CallReopenKeepsWait(s: Instance)
    requires Fits(s) && WaitFits(s)
    ensures WaitFits(OnCallReopen(s))
  {
    hide ReadsFit;
  }

  lemma UrlReopenedKeepsWait(s: Instance, ok: bool)
    requires Fits(s) && WaitFits(s)
    ensures WaitFits(OnUrlReopened(s, ok))
  {
    hide ReadsFit;
  }

  lemma CallReadKeepsWait(s: Instance, read: nat)
    requires Fits(s) && WaitFits(s)
    ensures WaitFits(OnCallRead(s, read))
  {
    hide ReadsFit;
  }

  lemma AccountReadKeepsWait(s: Instance, read: nat, ok: bool)
    requires Fits(s) && WaitFits(s)
    ensures WaitFits(OnAccountRead(s, read, ok))
  {
    hide ReadsFit;
  }

  lemma StopCancelDoneKeepsWait(s: Instance, ok: bool)
    requires Fits(s) && WaitFits(s)
    ensures WaitFits(OnStopCancelDone(s, ok))
  {
    hide ReadsFit;
  }

  lemma ClientStoppedKeepsWait(s: Instance, ok: bool)
    requires Fits(s) && WaitFits(s)
    ensures WaitFits(OnClientStopped(s, ok))
  {
    hide StartFits, LoginFits;
  }

  lemma StepKeepsWaitFits(s: Instance, e: Event)
    requires Fits(s) && WaitFits(s)
    ensures WaitFits(Step(s, e))
  {
    hide StopInstance, PerformStop, StartFits, LoginFits, StopFits;
    hide OnCreateClient, OnStartClient, OnCleanUpClient, OnCallLogin, OnLoginChallenge, OnLoginRefused;
    hide OnLateCancelDone, OnUrlOpened, OnOpenedCancelDone, OnCallWait, OnLoginCompletion, OnWaitFailed;
    hide OnCallReopen, OnUrlReopened, OnCallRead, OnAccountRead, OnStopCancelDone, OnClientStopped;
    match e {
      case CreateClient(ok) => CreateClientKeepsWait(s, ok);
      case StartClient(ok) => StartClientKeepsWait(s, ok);
      case CleanUpClient(ok) => CleanUpClientKeepsWait(s, ok);
      case CallLogin => CallLoginKeepsWait(s);
      case LoginChallenge(loginId, authUrl) => LoginChallengeKeepsWait(s, loginId, authUrl);
      case LoginRefused => LoginRefusedKeepsWait(s);
      case LateCancelDone => LateCancelDoneKeepsWait(s);
      case UrlOpened(ok) => UrlOpenedKeepsWait(s, ok);
      case OpenedCancelDone => OpenedCancelDoneKeepsWait(s);
      case CallWait => CallWaitKeepsWait(s);
      case LoginCompletion(loginId, success) => LoginCompletionKeepsWait(s, loginId, success);
      case WaitFailed => WaitFailedKeepsWait(s);
      case CallReopen => CallReopenKeepsWait(s);
      case UrlReopened(ok) => UrlReopenedKeepsWait(s, ok);
      case CallRead(read) => CallReadKeepsWait(s, read);
      case AccountRead(read, ok) => AccountReadKeepsWait(s, read, ok);
      case CallCancelLogin => StopKeepsWaitFits(s, true);
      case CallStop => StopKeepsWaitFits(s, false);
      case ShutDown =>
        ShutDownKeepsWait(s);
        StopKeepsWaitFits(s.(shuttingDown := true), false);
      case StartAwaited => StartAwaitedKeepsWait(s);
      case StopCancelDone(ok) => StopCancelDoneKeepsWait(s, ok);
      case ClientStopped(ok) => ClientStoppedKeepsWait(s, ok);
    }
  }

  lemma StartAwaitedKeepsWait(s: Instance)
    requires Fits(s) && WaitFits(s)
    ensures WaitFits(OnStartAwaited(s))
  {
    hide PerformStop, LoginFits, StopFits, WaitFits;
    if s.stop.AwaitingStart? {
      PerformKeepsWaitFits(s, s.stop.cancelLogin);
    }
  }

  lemma StepReaches(s: Instance, e: Event)
    requires Reached(s)
    ensures Reached(Step(s, e))
  {
    hide Step, StartFits, LoginFits, StopFits, Climbs, WaitFits;
    StepKeepsInvariant(s, e);
    StepKeepsWaitFits(s, e);
  }

  lemma {:induction false} RunReaches(s: Instance, events: seq<Event>)
    requires Reached(s)
    ensures Reached(Run(s, events))
    decreases |events|
  {
    hide Reached, Step;
    if events != [] {
      StepReaches(s, events[0]);
      RunReaches(Step(s, events[0]), events[1..]);
    }
  }

  // ---- When each phase is entered ----

  /** A stop goes to work: called now, or waiting for the start that has just settled. */
  predicate StopBegins(s: Instance, e: Event) {
    || (s.stop == NoStop && s.state != Starting && !s.stopCompleted
        && (e == CallStop || e == ShutDown || (e == CallCancelLogin && s.state == WaitingUser)))
    || (s.stop.AwaitingStart? && s.start == StartSettled && !s.stopCompleted && e == StartAwaited)
  }

  /** It asks the client to cancel the login first. */
  predicate StopCancels(s: Instance, e: Event) {
    e == CallCancelLogin || (e == StartAwaited && s.stop.AwaitingStart? && s.stop.cancelLogin)
  }

  predicate ReadyToLogIn(s: Instance) {
    s.state == Ready && !s.shuttingDown
  }

  /** The client's answer to the wait that the instance is waiting for. */
  predicate AnswersWait(s: Instance, e: Event) {
    s.wait.AwaitingLogin? && (e.LoginCompletion? || e == WaitFailed)
  }

  /** The consent of the user to exactly the login that is waited for. */
  predicate Consents(s: Instance, e: Event) {
    s.wait.AwaitingLogin? && e == LoginCompletion(s.wait.loginId, true)
  }

  predicate EntersFailed(s: Instance, e: Event) {
    || (s.start == Creating && e == CreateClient(false))
    || (s.start == CleaningUp && e.CleanUpClient?)
    || (ReadyToLogIn(s) && s.login == LoginRequested && e == LoginRefused)
    || (ReadyToLogIn(s) && s.login.CancellingOpened? && e == OpenedCancelDone)
    || (s.state == WaitingUser && AnswersWait(s, e) && !Consents(s, e))
    || (s.state == WaitingUser && !s.shuttingDown && s.reopen.Reopening? && e == UrlReopened(false))
    || (e.AccountRead? && !e.ok && e.read in s.pendingReads && s.pendingReads[e.read] == s.state)
    || (s.state == Stopping && s.stop.StoppingClient? && e.ClientStopped? && (s.stop.failed || !e.ok))
  }

  predicate EntersStopped(s: Instance, e: Event) {
    || (s.stop.StoppingClient? && !s.stop.failed && e == ClientStopped(true))
    || (s.state == Failed && s.stopCompleted && (e == CallStop || e == ShutDown))
    || (s.state == Failed && !s.client && StopBegins(s, e))
  }

  predicate Enters(s: Instance, e: Event, p: Phase) {
    match p
    case Starting => false
    case Ready => s.start == ClientStarting && e == StartClient(true)
    case WaitingUser => ReadyToLogIn(s) && s.login.Opening? && e == UrlOpened(true)
    case LoginCompleted => s.state == WaitingUser && Consents(s, e)
    case Stopping => Readable(s.state) && StopBegins(s, e)
    case Failed => EntersFailed(s, e)
    case Stopped => EntersStopped(s, e)
  }

  /** The phase after the event: the one it enters, if any. */
  function PhaseAfter(s: Instance, e: Event): Phase {
    if Enters(s, e, Ready) then Ready
    else if Enters(s, e, WaitingUser) then WaitingUser
    else if Enters(s, e, LoginCompleted) then LoginCompleted
    else if Enters(s, e, Stopping) then Stopping
    else if EntersFailed(s, e) then Failed
    else if EntersStopped(s, e) then Stopped
    else s.state
  }

  // ---- What changes each field ----

  /** A valid challenge is taken on. */
  predicate TakesChallenge(s: Instance, e: Event) {
    s.login == LoginRequested && ReadyToLogIn(s) && e.LoginChallenge?
  }

  /** What is held of the login is given up: cancelled, answered, or stopped with its client. */
  predicate DropsLogin(s: Instance, e: Event) {
    || (s.login.CancellingOpened? && e == OpenedCancelDone)
    || (s.state != Stopping && s.state != Stopped && AnswersWait(s, e))
    || (s.client && StopBegins(s, e))
  }

  function LoginIdAfter(s: Instance, e: Event): Option<string> {
    if TakesChallenge(s, e) then Some(e.loginId) else if DropsLogin(s, e) then None else s.loginId
  }

  function AuthUrlAfter(s: Instance, e: Event): Option<string> {
    if TakesChallenge(s, e) then Some(e.authUrl)
    else if DropsLogin(s, e) || EntersFailed(s, e) then None
    else s.authUrl
  }

  /** The client's own stop fulfilled. */
  predicate ClientStops(s: Instance, e: Event) {
    (s.start == CleaningUp && e == CleanUpClient(true)) || (s.stop.StoppingClient? && e == ClientStopped(true))
  }

  /** A stop promise fulfils: after an undisturbed stop, or at once when nothing is left to do. */
  predicate StopResolves(s: Instance, e: Event) {
    || (s.stop.StoppingClient? && !s.stop.failed && e == ClientStopped(true))
    || (!s.client && StopBegins(s, e))
    || (s.stopCompleted && (e == CallStop || e == ShutDown))
    || (s.stopCompleted && s.stop.AwaitingStart? && s.start == StartSettled && e == StartAwaited)
  }

  /** Which login the client is asked to cancel: late, unopened, or stopped while waiting. */
  function CancelAsked(s: Instance, e: Event): Option<string> {
    if s.login == LoginRequested && e.LoginChallenge? && !ReadyToLogIn(s) then Some(e.loginId)
    else if s.login.Opening? && e.UrlOpened? && !(e.ok && ReadyToLogIn(s)) then Some(s.login.loginId)
    else if s.client && StopBegins(s, e) && StopCancels(s, e) then s.loginId
    else None
  }

  /** What the outside sees of it. */
  function SeenAfter(s: Instance, e: Event): Seen {
    var asked := CancelAsked(s, e);
    Seen(s.seen.threw,
      if PhaseAfter(s, e) != s.state then s.seen.climbed + [PhaseAfter(s, e)] else s.seen.climbed,
      s.seen.stopSucceeded || ClientStops(s, e),
      s.seen.stopResolved || StopResolves(s, e),
      if s.login == LoginRequested && e.LoginChallenge? then Some(e.loginId) else s.seen.challenge,
      if asked.Some? then s.seen.cancelled + {asked.value} else s.seen.cancelled,
      s.seen.held || Enters(s, e, WaitingUser))
  }

  // ---- Where each method is suspended next ----

  function StartAfter(s: Instance, e: Event): StartStep {
    match s.start
    case Creating => if !e.CreateClient? then Creating else if e.ok then ClientStarting else StartSettled
    case ClientStarting => if !e.StartClient? then ClientStarting else if e.ok then StartSettled else CleaningUp
    case CleaningUp => if e.CleanUpClient? then StartSettled else CleaningUp
    case StartSettled => StartSettled
  }

  function LoginAfter(s: Instance, e: Event): LoginStep {
    match s.login
    case NoLogin => if e == CallLogin && s.state == Ready then LoginRequested else NoLogin
    case LoginRequested =>
      if e == LoginRefused then LoginSettled
      else if !e.LoginChallenge? then LoginRequested
      else if ReadyToLogIn(s) then Opening(e.loginId, e.authUrl)
      else CancellingLate(e.loginId)
    case CancellingLate(_) => if e == LateCancelDone then LoginSettled else s.login
    case Opening(loginId, authUrl) =>
      if !e.UrlOpened? then s.login
      else if e.ok && ReadyToLogIn(s) then LoginSettled
      else CancellingOpened(loginId, authUrl)
    case CancellingOpened(_, _) => if e == OpenedCancelDone then LoginSettled else s.login
    case LoginSettled => LoginSettled
  }

  function WaitAfter(s: Instance, e: Event): WaitStep {
    match s.wait
    case NoWait => if e == CallWait && s.state == WaitingUser && s.loginId.Some? then AwaitingLogin(s.loginId.value) else NoWait
    case AwaitingLogin(_) => if AnswersWait(s, e) then WaitSettled else s.wait
    case WaitSettled => WaitSettled
  }

  function ReopenAfter(s: Instance, e: Event): ReopenStep {
    match s.reopen
    case NoReopen =>
      if e == CallReopen && s.state == WaitingUser && s.loginId.Some? && s.authUrl.Some?
      then Reopening(s.loginId.value, s.authUrl.value)
      else NoReopen
    case Reopening(_, _) => if e.UrlReopened? then NoReopen else s.reopen
  }

  function StopAfter(s: Instance, e: Event): StopStep {
    if s.client && StopBegins(s, e) then
      if StopCancels(s, e) && s.loginId.Some? then StopCancelling(s.state == Failed)
      else StoppingClient(s.state == Failed, false)
    else
      match s.stop
      case NoStop => if s.state == Starting && (e == CallStop || e == ShutDown) then AwaitingStart(false) else NoStop
      case AwaitingStart(_) => if e == StartAwaited && s.start == StartSettled then NoStop else s.stop
      case StopCancelling(wasFailed) => if e.StopCancelDone? then StoppingClient(wasFailed, !e.ok) else s.stop
      case StoppingClient(_, _) => if e.ClientStopped? then NoStop else s.stop
  }

  /** A read in the phase in which it was asked for. */
  function ReadsAfter(s: Instance, e: Event): map<nat, Phase> {
    if e.AccountRead? && e.read in s.pendingReads then s.pendingReads - {e.read}
    else if e.CallRead? && e.read !in s.pendingReads && Readable(s.state) then s.pendingReads[e.read := s.state]
    else s.pendingReads
  }

  function After(s: Instance, e: Event): Instance {
    Instance(PhaseAfter(s, e), s.client || (s.start == Creating && e == CreateClient(true)),
      LoginIdAfter(s, e), AuthUrlAfter(s, e),
      s.stopCompleted || ClientStops(s, e) || (!s.client && StopBegins(s, e)),
      s.shuttingDown || e == ShutDown,
      StartAfter(s, e), LoginAfter(s, e), WaitAfter(s, e), ReopenAfter(s, e), StopAfter(s, e), ReadsAfter(s, e),
      SeenAfter(s, e))
  }

  /** An event of one method leaves the others where they are suspended. */
  lemma OthersStay(s: Instance, e: Event)
    ensures !(e.CreateClient? || e.StartClient? || e.CleanUpClient?) ==> StartAfter(s, e) == s.start
    ensures e.CallLogin? || e.LoginChallenge? || e.LoginRefused? || e.LateCancelDone? || e.UrlOpened?
      || e.OpenedCancelDone? || LoginAfter(s, e) == s.login
    ensures !(e.CallWait? || e.LoginCompletion? || e.WaitFailed?) ==> WaitAfter(s, e) == s.wait
    ensures !(e.CallReopen? || e.UrlReopened?) ==> ReopenAfter(s, e) == s.reopen
    ensures !(e.CallRead? || e.AccountRead?) ==> ReadsAfter(s, e) == s.pendingReads
    ensures e.CallStop? || e.ShutDown? || e.CallCancelLogin? || e.StartAwaited? || e.StopCancelDone?
      || e.ClientStopped? || StopAfter(s, e) == s.stop
  {
    hide Readable;
  }

  // Each event, field by field. Where there is much to compare, the phases come first.

  lemma WhatEnters(s: Instance, e: Event)
    ensures Enters(s, e, Ready) ==> e.StartClient?
    ensures Enters(s, e, WaitingUser) ==> e.UrlOpened?
    ensures Enters(s, e, LoginCompleted) ==> e.LoginCompletion?
    ensures Enters(s, e, Stopping) ==> e.CallStop? || e.ShutDown? || e.CallCancelLogin? || e.StartAwaited?
  {
  }

  ghost predicate PhaseIs(s: Instance, e: Event, t: Instance) {
    && t.state == PhaseAfter(s, e)
    && (EntersFailed(s, e) <==> t.state == Failed != s.state)
    && (Enters(s, e, WaitingUser) <==> t.state == WaitingUser != s.state)
  }

  lemma CreateClientLaw(s: Instance, ok: bool)
    requires Reached(s)
    ensures OnCreateClient(s, ok) == After(s, CreateClient(ok))
  {
    hide Climbs, LoginFits, StopFits, WaitFits;
    hide LoginAfter, WaitAfter, ReopenAfter, StopAfter, ReadsAfter;
    OthersStay(s, CreateClient(ok));
  }

  lemma StartClientLaw(s: Instance, ok: bool)
    requires Reached(s)
    ensures OnStartClient(s, ok) == After(s, StartClient(ok))
  {
    hide Climbs, LoginFits, StopFits, WaitFits;
    hide LoginAfter, WaitAfter, ReopenAfter, StopAfter, ReadsAfter;
    OthersStay(s, StartClient(ok));
  }

  lemma CleanUpClientLaw(s: Instance, ok: bool)
    requires Reached(s)
    ensures OnCleanUpClient(s, ok) == After(s, CleanUpClient(ok))
  {
    hide Climbs, LoginFits, WaitFits;
    hide LoginAfter, WaitAfter, ReopenAfter, StopAfter, ReadsAfter;
    OthersStay(s, CleanUpClient(ok));
  }

  lemma CallLoginLaw(s: Instance)
    requires Reached(s)
    ensures OnCallLogin(s) == After(s, CallLogin)
  {
    hide Climbs, StopFits, WaitFits, ReadsFit;
  }

  lemma LoginChallengeLaw(s: Instance, loginId: string, authUrl: string)
    requires Reached(s)
    ensures OnLoginChallenge(s, loginId, authUrl) == After(s, LoginChallenge(loginId, authUrl))
  {
    hide Climbs, LoginFits, StopFits, WaitFits;
    hide StartAfter, WaitAfter, ReopenAfter, StopAfter, ReadsAfter;
    OthersStay(s, LoginChallenge(loginId, authUrl));
  }

  lemma LoginRefusedPhase(s: Instance)
    requires Reached(s)
    ensures PhaseIs(s, LoginRefused, OnLoginRefused(s))
  {
    hide Climbs, LoginFits, StopFits, WaitFits;
  }

  lemma LoginRefusedLaw(s: Instance)
    requires Reached(s)
    ensures OnLoginRefused(s) == After(s, LoginRefused)
  {
    hide Climbs, LoginFits, StopFits, WaitFits, PhaseAfter, EntersFailed, EntersStopped, Enters;
    hide StartAfter, WaitAfter, ReopenAfter, StopAfter, ReadsAfter;
    OthersStay(s, LoginRefused);
    LoginRefusedPhase(s);
  }

  lemma LateCancelDoneLaw(s: Instance)
    requires Reached(s)
    ensures OnLateCancelDone(s) == After(s, LateCancelDone)
  {
    hide Climbs, LoginFits, StopFits, WaitFits, StartFits;
  }

  lemma UrlOpenedPhase(s: Instance, ok: bool)
    requires Reached(s)
    ensures PhaseIs(s, UrlOpened(ok), OnUrlOpened(s, ok))
  {
    hide Climbs, StopFits, ReadsFit;
  }

  lemma UrlOpenedLaw(s: Instance, ok: bool)
    requires Reached(s)
    ensures OnUrlOpened(s, ok) == After(s, UrlOpened(ok))
  {
    hide Climbs, StopFits, ReadsFit, PhaseAfter, EntersFailed, EntersStopped, Enters;
    hide StartAfter, WaitAfter, ReopenAfter, StopAfter, ReadsAfter;
    OthersStay(s, UrlOpened(ok));
    UrlOpenedPhase(s, ok);
  }

  lemma OpenedCancelDonePhase(s: Instance)
    requires Reached(s)
    ensures PhaseIs(s, OpenedCancelDone, OnOpenedCancelDone(s))
  {
    hide Climbs, StopFits, LoginFits;
  }

  lemma OpenedCancelDoneLaw(s: Instance)
    requires Reached(s)
    ensures OnOpenedCancelDone(s) == After(s, OpenedCancelDone)
  {
    hide Climbs, StopFits, LoginFits, PhaseAfter, EntersFailed, EntersStopped, Enters;
    hide StartAfter, WaitAfter, ReopenAfter, StopAfter, ReadsAfter;
    OthersStay(s, OpenedCancelDone);
    OpenedCancelDonePhase(s);
  }

  lemma CallWaitLaw(s: Instance)
    requires Reached(s)
    ensures OnCallWait(s) == After(s, CallWait)
  {
    hide Climbs, StopFits, ReadsFit;
  }

  lemma AnswersOnly(s: Instance, e: Event)
    requires e.LoginCompletion? || e.WaitFailed?
    ensures CancelAsked(s, e).None? && !ClientStops(s, e) && !StopResolves(s, e) && !Enters(s, e, WaitingUser)
  {
  }

  lemma OnlyClimbs(s: Instance, e: Event, t: Instance)
    requires PhaseIs(s, e, t) && !Enters(s, e, WaitingUser)
    requires CancelAsked(s, e).None? && !ClientStops(s, e) && !StopResolves(s, e) && !e.LoginChallenge?
    requires t.seen == s.seen.(climbed := if t.state != s.state then s.seen.climbed + [t.state] else s.seen.climbed)
    ensures t.seen == SeenAfter(s, e)
  {
    hide PhaseAfter, Enters, EntersFailed, CancelAsked, ClientStops, StopResolves;
  }

  lemma LoginCompletionPhase(s: Instance, loginId: string, success: bool)
    requires Reached(s)
    ensures PhaseIs(s, LoginCompletion(loginId, success), OnLoginCompletion(s, loginId, success))
  {
    hide Climbs, StartFits, StopFits, ReadsFit;
  }

  lemma LoginCompletionClimbs(s: Instance, loginId: string, success: bool)
    ensures var t := OnLoginCompletion(s, loginId, success);
      t.seen == s.seen.(climbed := if t.state != s.state then s.seen.climbed + [t.state] else s.seen.climbed)
  {
  }

  lemma LoginCompletionSeen(s: Instance, loginId: string, success: bool)
    requires Reached(s)
    ensures OnLoginCompletion(s, loginId, success).seen == SeenAfter(s, LoginCompletion(loginId, success))
  {
    hide Reached, OnLoginCompletion, PhaseIs, PhaseAfter, Enters;
    LoginCompletionPhase(s, loginId, success);
    LoginCompletionClimbs(s, loginId, success);
    AnswersOnly(s, LoginCompletion(loginId, success));
    OnlyClimbs(s, LoginCompletion(loginId, success), OnLoginCompletion(s, loginId, success));
  }

  lemma LoginCompletionLaw(s: Instance, loginId: string, success: bool)
    requires Reached(s)
    ensures OnLoginCompletion(s, loginId, success) == After(s, LoginCompletion(loginId, success))
  {
    hide Climbs, StartFits, LoginFits, StopFits, WaitFits, PhaseAfter, EntersFailed, EntersStopped, Enters;
    hide StartAfter, LoginAfter, ReopenAfter, StopAfter, ReadsAfter, SeenAfter;
    OthersStay(s, LoginCompletion(loginId, success));
    LoginCompletionPhase(s, loginId, success);
    LoginCompletionSeen(s, loginId, success);
  }

  lemma WaitFailedPhase(s: Instance)
    requires Reached(s)
    ensures PhaseIs(s, WaitFailed, OnWaitFailed(s))
  {
    hide Climbs, StartFits, StopFits, ReadsFit, Enters;
    WhatEnters(s, WaitFailed);
  }

  lemma WaitFailedClimbs(s: Instance)
    ensures var t := OnWaitFailed(s);
      t.seen == s.seen.(climbed := if t.state != s.state then s.seen.climbed + [t.state] else s.seen.climbed)
  {
  }

  lemma WaitFailedSeen(s: Instance)
    requires Reached(s)
    ensures OnWaitFailed(s).seen == SeenAfter(s, WaitFailed)
  {
    hide Reached, OnWaitFailed, PhaseIs, PhaseAfter, Enters;
    WaitFailedPhase(s);
    WaitFailedClimbs(s);
    AnswersOnly(s, WaitFailed);
    OnlyClimbs(s, WaitFailed, OnWaitFailed(s));
  }

  lemma WaitFailedLaw(s: Instance)
    requires Reached(s)
    ensures OnWaitFailed(s) == After(s, WaitFailed)
  {
    hide Climbs, StartFits, LoginFits, StopFits, WaitFits, PhaseAfter, EntersFailed, EntersStopped, Enters;
    hide StartAfter, LoginAfter, ReopenAfter, StopAfter, ReadsAfter, SeenAfter;
    OthersStay(s, WaitFailed);
    WaitFailedPhase(s);
    WaitFailedSeen(s);
  }

  lemma CallReopenLaw(s: Instance)
    requires Reached(s)
    ensures OnCallReopen(s) == After(s, CallReopen)
  {
    hide Climbs, StopFits, ReadsFit;
  }

  lemma UrlReopenedPhase(s: Instance, ok: bool)
    requires Reached(s)
    ensures PhaseIs(s, UrlReopened(ok), OnUrlReopened(s, ok))
  {
    hide Climbs, StopFits, ReadsFit;
  }

  lemma UrlReopenedLaw(s: Instance, ok: bool)
    requires Reached(s)
    ensures OnUrlReopened(s, ok) == After(s, UrlReopened(ok))
  {
    hide Climbs, StopFits, ReadsFit, PhaseAfter, EntersFailed, EntersStopped, Enters;
    hide StartAfter, LoginAfter, WaitAfter, StopAfter, ReadsAfter;
    OthersStay(s, UrlReopened(ok));
    UrlReopenedPhase(s, ok);
  }

  lemma CallReadLaw(s: Instance, read: nat)
    requires Reached(s)
    ensures OnCallRead(s, read) == After(s, CallRead(read))
  {
    hide Climbs, StopFits, WaitFits;
  }

  lemma AccountReadPhase(s: Instance, read: nat, ok: bool)
    requires Reached(s)
    ensures PhaseIs(s, AccountRead(read, ok), OnAccountRead(s, read, ok))
  {
    hide Climbs, StartFits, StopFits, WaitFits, Enters;
    WhatEnters(s, AccountRead(read, ok));
  }

  lemma AccountReadLaw(s: Instance, read: nat, ok: bool)
    requires Reached(s)
    ensures OnAccountRead(s, read, ok) == After(s, AccountRead(read, ok))
  {
    hide Climbs, StartFits, StopFits, WaitFits, PhaseAfter, EntersFailed, EntersStopped, Enters;
    hide StartAfter, LoginAfter, WaitAfter, ReopenAfter, StopAfter;
    OthersStay(s, AccountRead(read, ok));
    AccountReadPhase(s, read, ok);
  }

  lemma CallCancelLoginLaw(s: Instance)
    requires Reached(s)
    ensures OnCallCancelLogin(s) == After(s, CallCancelLogin)
  {
    hide Climbs, ReadsFit;
    hide StartAfter, LoginAfter, WaitAfter, ReopenAfter, ReadsAfter;
    OthersStay(s, CallCancelLogin);
  }

  /** What is seen of the event but for the phases. */
  ghost predicate StopShows(s: Instance, e: Event, seen: Seen) {
    && seen.stopSucceeded == s.seen.stopSucceeded
    && seen.stopResolved == (s.seen.stopResolved || StopResolves(s, e))
    && seen.challenge == s.seen.challenge && seen.held == s.seen.held
    && seen.cancelled == match CancelAsked(s, e)
                         case Some(asked) => s.seen.cancelled + {asked}
                         case None => s.seen.cancelled
  }

  lemma StopsOnly(s: Instance, e: Event, t: Instance)
    requires PhaseIs(s, e, t) && MovesOnce(s, t) && StopShows(s, e, t.seen)
    requires e.CallStop? || e.StartAwaited?
    ensures t.seen == SeenAfter(s, e)
  {
    hide PhaseAfter, EntersFailed, EntersStopped, CancelAsked, StopResolves;
  }

  lemma TransitionShows(s: Instance, next: Phase)
    ensures var t := Transition(s, next);
      t == s.(state := t.state, seen := s.seen.(threw := t.seen.threw, climbed := t.seen.climbed))
  {
  }

  lemma PerformShows(s: Instance, cancelLogin: bool)
    ensures var seen := PerformStop(s, cancelLogin).seen;
      && seen.stopSucceeded == s.seen.stopSucceeded && seen.challenge == s.seen.challenge && seen.held == s.seen.held
      && seen.stopResolved == (s.seen.stopResolved || s.stopCompleted || !s.client)
      && seen.cancelled == if !s.stopCompleted && s.client && cancelLogin && s.loginId.Some?
                           then s.seen.cancelled + {s.loginId.value}
                           else s.seen.cancelled
  {
    hide Transition;
    TransitionShows(s, Stopping);
    TransitionShows(s.(stopCompleted := true), Stopped);
  }

  lemma CallStopPhase(s: Instance)
    requires Reached(s)
    ensures PhaseIs(s, CallStop, OnCallStop(s))
  {
    hide Climbs, LoginFits, WaitFits;
  }

  lemma CallStopShows(s: Instance)
    ensures StopShows(s, CallStop, OnCallStop(s).seen)
  {
    hide PerformStop, Transition;
    TransitionShows(s, Stopped);
    PerformShows(s, false);
  }

  lemma CallStopSeen(s: Instance)
    requires Reached(s)
    ensures OnCallStop(s).seen == SeenAfter(s, CallStop)
  {
    hide PhaseAfter, Enters, EntersFailed, CancelAsked, ClientStops, StopResolves, StopShows;
    hide Climbs, StartFits, LoginFits, StopFits, WaitFits, OnCallStop;
    CallStopPhase(s);
    CallStopShows(s);
    KeepsCallStop(s);
    StopsOnly(s, CallStop, OnCallStop(s));
  }

  lemma CallStopLaw(s: Instance)
    requires Reached(s)
    ensures OnCallStop(s) == After(s, CallStop)
  {
    hide Climbs, LoginFits, WaitFits, PhaseAfter, EntersFailed, EntersStopped, Enters;
    hide StartAfter, LoginAfter, WaitAfter, ReopenAfter, ReadsAfter, SeenAfter;
    OthersStay(s, CallStop);
    CallStopPhase(s);
    CallStopSeen(s);
  }

  lemma ShutDownPhase(s: Instance)
    requires Reached(s)
    ensures PhaseIs(s, ShutDown, OnShutDown(s))
  {
    hide Climbs, LoginFits, WaitFits;
  }

  lemma ShutDownLaw(s: Instance)
    requires Reached(s)
    ensures OnShutDown(s) == After(s, ShutDown)
  {
    hide Climbs, LoginFits, WaitFits, PhaseAfter, EntersFailed, EntersStopped, Enters;
    hide StartAfter, LoginAfter, WaitAfter, ReopenAfter, ReadsAfter;
    OthersStay(s, ShutDown);
    ShutDownPhase(s);
  }

  lemma StartAwaitedPhase(s: Instance)
    requires Reached(s)
    ensures PhaseIs(s, StartAwaited, OnStartAwaited(s))
  {
    hide Climbs, LoginFits, WaitFits;
  }

  lemma StartAwaitedShows(s: Instance)
    ensures StopShows(s, StartAwaited, OnStartAwaited(s).seen)
  {
    hide PerformStop;
    if s.stop.AwaitingStart? {
      PerformShows(s, s.stop.cancelLogin);
    }
  }

  lemma StartAwaitedSeen(s: Instance)
    requires Reached(s)
    ensures OnStartAwaited(s).seen == SeenAfter(s, StartAwaited)
  {
    hide PhaseAfter, Enters, EntersFailed, CancelAsked, ClientStops, StopResolves, StopShows;
    hide Climbs, StartFits, LoginFits, StopFits, WaitFits, OnStartAwaited;
    StartAwaitedPhase(s);
    StartAwaitedShows(s);
    KeepsStartAwaited(s);
    StopsOnly(s, StartAwaited, OnStartAwaited(s));
  }

  lemma StartAwaitedLaw(s: Instance)
    requires Reached(s)
    ensures OnStartAwaited(s) == After(s, StartAwaited)
  {
    hide Climbs, LoginFits, WaitFits, PhaseAfter, EntersFailed, EntersStopped, Enters;
    hide StartAfter, LoginAfter, WaitAfter, ReopenAfter, ReadsAfter, SeenAfter;
    OthersStay(s, StartAwaited);
    StartAwaitedPhase(s);
    StartAwaitedSeen(s);
  }

  lemma StopCancelDoneLaw(s: Instance, ok: bool)
    requires Reached(s)
    ensures OnStopCancelDone(s, ok) == After(s, StopCancelDone(ok))
  {
    hide Climbs, LoginFits, WaitFits, StartFits;
  }

  lemma ClientStoppedPhase(s: Instance, ok: bool)
    requires Reached(s)
    ensures PhaseIs(s, ClientStopped(ok), OnClientStopped(s, ok))
  {
    hide Climbs, LoginFits, WaitFits, Enters;
    WhatEnters(s, ClientStopped(ok));
  }

  lemma ClientStoppedSeen(s: Instance, ok: bool)
    requires Reached(s)
    ensures OnClientStopped(s, ok).seen == SeenAfter(s, ClientStopped(ok))
  {
    hide Climbs, StartFits, LoginFits, WaitFits, PhaseAfter, EntersFailed, EntersStopped, Enters;
    ClientStoppedPhase(s, ok);
  }

  lemma ClientStoppedLaw(s: Instance, ok: bool)
    requires Reached(s)
    ensures OnClientStopped(s, ok) == After(s, ClientStopped(ok))
  {
    hide Transition;
    var t := s.(stopCompleted := ok, seen := s.seen.(stopSucceeded := s.seen.stopSucceeded || ok));
    TransitionShows(t, Stopped);
    TransitionShows(t.(authUrl := None), Failed);
    hide Climbs, StartFits, WaitFits, ReadsFit, PhaseAfter, EntersFailed, EntersStopped, Enters;
    hide StartAfter, LoginAfter, WaitAfter, ReopenAfter, ReadsAfter, SeenAfter;
    OthersStay(s, ClientStopped(ok));
    ClientStoppedPhase(s, ok);
    ClientStoppedSeen(s, ok);
  }

  /**
   * Every step, in every reachable state, changes exactly the fields that these descriptions say,
   * to exactly what they say.
   */
  lemma StepIsExplained(s: Instance, e: Event)
    requires Reached(s)
    ensures Step(s, e) == After(s, e)
  {
    hide Reached, After;
    hide OnCreateClient, OnStartClient, OnCleanUpClient, OnCallLogin, OnLoginChallenge, OnLoginRefused;
    hide OnLateCancelDone, OnUrlOpened, OnOpenedCancelDone, OnCallWait, OnLoginCompletion, OnWaitFailed;
    hide OnCallReopen, OnUrlReopened, OnCallRead, OnAccountRead, OnCallCancelLogin, OnCallStop, OnShutDown;
    hide OnStartAwaited, OnStopCancelDone, OnClientStopped;
    match e {
      case CreateClient(ok) => CreateClientLaw(s, ok);
      case StartClient(ok) => StartClientLaw(s, ok);
      case CleanUpClient(ok) => CleanUpClientLaw(s, ok);
      case CallLogin => CallLoginLaw(s);
      case LoginChallenge(loginId, authUrl) => LoginChallengeLaw(s, loginId, authUrl);
      case LoginRefused => LoginRefusedLaw(s);
      case LateCancelDone => LateCancelDoneLaw(s);
      case UrlOpened(ok) => UrlOpenedLaw(s, ok);
      case OpenedCancelDone => OpenedCancelDoneLaw(s);
      case CallWait => CallWaitLaw(s);
      case LoginCompletion(loginId, success) => LoginCompletionLaw(s, loginId, success);
      case WaitFailed => WaitFailedLaw(s);
      case CallReopen => CallReopenLaw(s);
      case UrlReopened(ok) => UrlReopenedLaw(s, ok);
      case CallRead(read) => CallReadLaw(s, read);
      case AccountRead(read, ok) => AccountReadLaw(s, read, ok);
      case CallCancelLogin => CallCancelLoginLaw(s);
      case CallStop => CallStopLaw(s);
      case ShutDown => ShutDownLaw(s);
      case StartAwaited => StartAwaitedLaw(s);
      case StopCancelDone(ok) => StopCancelDoneLaw(s, ok);
      case ClientStopped(ok) => ClientStoppedLaw(s, ok);
    }
  }

  /** The phases that the event enters are one or none, and the one it enters is new. */
  lemma EntersExactly(s: Instance, e: Event, p: Phase)
    requires Reached(s)
    ensures Step(s, e).seen.climbed == s.seen.climbed + [p] <==> Enters(s, e, p)
  {
    hide Step, Climbs, ReadsFit, LoginIdAfter, AuthUrlAfter, CancelAsked, StopResolves, ClientStops;
    hide StartAfter, LoginAfter, WaitAfter, ReopenAfter, StopAfter, ReadsAfter;
    StepIsExplained(s, e);
    if Enters(s, e, p) {
      OneAtATime(s, e, p);
    } else if Step(s, e).seen.climbed == s.seen.climbed + [p] {
      SameLast(s.seen.climbed, PhaseAfter(s, e), p);
    }
  }

  lemma SameLast(path: seq<Phase>, p: Phase, q: Phase)
    ensures path + [p] == path + [q] ==> p == q
    ensures path != path + [p]
  {
    assert (path + [p])[|path|] == p && (path + [q])[|path|] == q;
  }

  lemma OneAtATime(s: Instance, e: Event, p: Phase)
    requires Reached(s) && Enters(s, e, p)
    ensures PhaseAfter(s, e) == p != s.state
  {
    hide Climbs;
  }

  lemma {:induction false} RunSplits(s: Instance, events: seq<Event>, more: seq<Event>)
    ensures Run(s, events + more) == Run(Run(s, events), more)
    decreases |events|
  {
    hide Step;
    if events == [] {
      assert events + more == more;
    } else {
      assert (events + more)[1..] == events[1..] + more;
      RunSplits(Step(s, events[0]), events[1..], more);
    }
  }

  /** Some event of the run enters the phase. */
  ghost predicate EnteredIn(events: seq<Event>, p: Phase) {
    exists i | 0 <= i < |events| :: Enters(Run(Initial(), events[..i]), events[i], p)
  }

  /** Over whole runs: a phase is on the path exactly if one of these situations arose. */
  lemma {:induction false} PathIsExplained(events: seq<Event>, p: Phase)
    ensures p in Run(Initial(), events).seen.climbed <==> EnteredIn(events, p)
    decreases |events|
  {
    hide Step, Enters, Reached;
    if events == [] {
      assert Run(Initial(), events) == Initial();
    } else {
      var n := |events| - 1;
      var init, last := events[..n], events[n];
      var s := Run(Initial(), init);
      PathIsExplained(init, p);
      assert events == init + [last];
      RunSplits(Initial(), init, [last]);
      assert [last][1..] == [] && Run(s, [last]) == Run(Step(s, last), []) == Step(s, last);
      InitialIsReached();
      RunReaches(Initial(), init);
      EntersExactly(s, last, p);
      GrowsByOne(s, last, p);
      forall i | 0 <= i < n ensures events[..i] == init[..i] && events[i] == init[i] {
      }
    }
  }

  lemma InitialIsReached()
    ensures Reached(Initial())
  {
    InitialHolds();
  }

  lemma GrowsByOne(s: Instance, e: Event, p: Phase)
    requires Reached(s)
    ensures var before, after := s.seen.climbed, Step(s, e).seen.climbed;
      p in after <==> p in before || after == before + [p]
  {
    hide Step, StartFits, LoginFits, StopFits, WaitFits;
    StepMovesOnce(s, e);
    var before, after := s.seen.climbed, Step(s, e).seen.climbed;
    if after != before {
      assert after == before + [Step(s, e).state];
      assert after[|before|] == Step(s, e).state;
    }
  }

  /**
   * The login is completed if and only if, while the instance waits for its user, a wait for the
   * held challenge is answered with consent to exactly that login.
   */
  lemma LoginNeedsConsent(events: seq<Event>)
    ensures LoginCompleted in Run(Initial(), events).seen.climbed <==>
      exists i | 0 <= i < |events| ::
        var s := Run(Initial(), events[..i]);
        && s.state == WaitingUser && s.loginId.Some? && s.seen.challenge == s.loginId
        && s.wait == AwaitingLogin(s.loginId.value) && events[i] == LoginCompletion(s.loginId.value, true)
  {
    hide Run;
    PathIsExplained(events, LoginCompleted);
    InitialIsReached();
    forall i | 0 <= i < |events| ensures Reached(Run(Initial(), events[..i])) {
      RunReaches(Initial(), events[..i]);
    }
  }

  /** Any other answer to that wait ends with the instance failed and nothing of the login held. */
  lemma DeniedLoginFails(s: Instance, e: Event)
    requires Reached(s) && s.state == WaitingUser && AnswersWait(s, e) && !Consents(s, e)
    ensures var t := Step(s, e);
      t.state == Failed && t.loginId.None? && t.authUrl.None? && t.wait == WaitSettled
  {
  }
}
