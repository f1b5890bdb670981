/**
 * One runtime instance of the Codex App Server supervisor. Each event is the code between
 * two awaits of one of the asynchronous methods, so a run of events is an arbitrary
 * interleaving. Observers do not re-enter. Instances share nothing but `shuttingDown`.
 */
module Supervisor {
  import opened Basics

  datatype Phase = Starting | Ready | WaitingUser | LoginCompleted | Stopping | Failed | Stopped

  /** Where each asynchronous method is suspended. */
  datatype StartStep = Creating | ClientStarting | CleaningUp | StartSettled

  datatype LoginStep =
    | NoLogin
    | LoginRequested
    | CancellingLate(loginId: string)
    | Opening(loginId: string, authUrl: string)
    | CancellingOpened(loginId: string, authUrl: string)
    | LoginSettled

  datatype WaitStep = NoWait | AwaitingLogin(loginId: string) | WaitSettled

  datatype ReopenStep = NoReopen | Reopening(loginId: string, authUrl: string)

  datatype StopStep =
    | NoStop
    | AwaitingStart(cancelLogin: bool)
    | StopCancelling(wasFailed: bool)
    | StoppingClient(wasFailed: bool, failed: bool)

  /** What the outside has seen. */
  datatype Seen = Seen(
    threw: bool,                 // a transition was refused
    climbed: seq<Phase>,         // the phases entered, in order
    stopSucceeded: bool,         // some client.stop() fulfilled
    stopResolved: bool,          // some stop promise fulfilled
    challenge: Option<string>,   // login id of the validated challenge
    cancelled: set<string>,      // login ids passed to client.cancelLogin
    held: bool)                  // the login start ended with its challenge held in waiting_user

  datatype Instance = Instance(
    state: Phase,
    client: bool,
    loginId: Option<string>,
    authUrl: Option<string>,
    stopCompleted: bool,
    shuttingDown: bool,
    start: StartStep,
    login: LoginStep,
    wait: WaitStep,
    reopen: ReopenStep,
    stop: StopStep,
    pendingReads: map<nat, Phase>,
    seen: Seen)

  datatype Event =
    | CreateClient(ok: bool)
    | StartClient(ok: bool)
    | CleanUpClient(ok: bool)
    | CallLogin
    | LoginChallenge(loginId: string, authUrl: string)
    | LoginRefused
    | LateCancelDone
    | UrlOpened(ok: bool)
    | OpenedCancelDone
    | CallWait
    | LoginCompletion(loginId: string, success: bool)
    | WaitFailed
    | CallReopen
    | UrlReopened(ok: bool)
    | CallRead(read: nat)
    | AccountRead(read: nat, ok: bool)
    | CallCancelLogin
    | CallStop
    | ShutDown
    | StartAwaited
    | StopCancelDone(ok: bool)
    | ClientStopped(ok: bool)

  function Initial(): Instance {
    Instance(Starting, false, None, None, false, false, Creating, NoLogin, NoWait, NoReopen, NoStop,
      map[], Seen(false, [], false, false, None, {}, false))
  }

  predicate ValidTransition(current: Phase, next: Phase) {
    match current
    case Starting => next == Ready || next == Failed
    case Ready => next == WaitingUser || next == Stopping || next == Failed
    case WaitingUser => next == LoginCompleted || next == Stopping || next == Failed
    case LoginCompleted => next == Stopping || next == Failed
    case Stopping => next == Stopped || next == Failed
    case Failed => next == Stopped
    case Stopped => false
  }

  function Transition(s: Instance, next: Phase): Instance {
    if !ValidTransition(s.state, next) then s.(seen := s.seen.(threw := true))
    else s.(state := next, seen := s.seen.(climbed := s.seen.climbed + [next]))
  }

  function Fail(s: Instance): Instance {
    if s.state == Failed || s.state == Stopped then s
    else Transition(s.(authUrl := None), Failed)
  }

  predicate ExactReady(s: Instance) {
    !s.shuttingDown && s.state == Ready && s.client
  }

  predicate ExactWaiting(s: Instance, loginId: string, authUrl: string) {
    && !s.shuttingDown && s.state == WaitingUser && s.client
    && s.loginId == Some(loginId) && s.authUrl == Some(authUrl)
  }

  /** performStart's catch block, up to its own await of client.stop(). */
  function StartFailed(s: Instance): Instance {
    if s.client then s.(start := CleaningUp) else Fail(s.(start := StartSettled))
  }

  function CancelLogin(s: Instance, loginId: string): Instance {
    s.(seen := s.seen.(cancelled := s.seen.cancelled + {loginId}))
  }

  /** Ends the login start; whether its challenge is held is read off the instance. */
  function SettleLogin(s: Instance, loginId: string, authUrl: string): Instance {
    s.(login := LoginSettled,
       seen := s.seen.(held := s.state == WaitingUser && s.loginId == Some(loginId) && s.authUrl == Some(authUrl)))
  }

  function ResolveStop(s: Instance): Instance {
    s.(stop := NoStop, seen := s.seen.(stopResolved := true))
  }

  /** stopInstance: an already completed stop answers at once, a running one is shared. */
  function StopInstance(s: Instance, cancelLogin: bool): Instance {
    if s.stopCompleted then
      var t := if s.state == Failed then Transition(s, Stopped) else s;
      t.(seen := t.seen.(stopResolved := true))
    else if s.stop != NoStop then s
    else if s.state == Starting then s.(stop := AwaitingStart(cancelLogin))
    else PerformStop(s, cancelLogin)
  }

  /** performStop from its second check up to the next await. */
  function PerformStop(s: Instance, cancelLogin: bool): Instance {
    if s.stopCompleted then ResolveStop(s)
    else if !s.client then
      var t := s.(stopCompleted := true);
      ResolveStop(if t.state == Failed then Transition(t, Stopped) else t)
    else
      var wasFailed := s.state == Failed;
      var t := if wasFailed then s else Transition(s, Stopping);
      var u := t.(loginId := None, authUrl := None);
      if cancelLogin && t.loginId.Some? then CancelLogin(u, t.loginId.value).(stop := StopCancelling(wasFailed))
      else u.(stop := StoppingClient(wasFailed, false))
  }

  function FinishStop(s: Instance, ok: bool): Instance
    requires s.stop.StoppingClient?
  {
    var failed := s.stop.failed || !ok;
    var t := s.(stopCompleted := ok, seen := s.seen.(stopSucceeded := s.seen.stopSucceeded || ok));
    if failed then (if s.stop.wasFailed then t else Fail(t)).(stop := NoStop)
    else ResolveStop(Transition(t, Stopped))
  }

  /** performWaitForLogin's catch block. */
  function WaitRejected(s: Instance): Instance {
    if s.state == Stopping || s.state == Stopped then s.(wait := WaitSettled)
    else Fail(s.(loginId := None, authUrl := None, wait := WaitSettled))
  }

  // One function per event: the code up to the next await. An event that does not apply changes nothing.

  function OnCreateClient(s: Instance, ok: bool): Instance {
    if s.start != Creating then s
    else if ok then s.(client := true, start := ClientStarting)
    else StartFailed(s)
  }

  function OnStartClient(s: Instance, ok: bool): Instance {
    if s.start != ClientStarting then s
    else if ok then Transition(s, Ready).(start := StartSettled)
    else StartFailed(s)
  }

  function OnCleanUpClient(s: Instance, ok: bool): Instance {
    if s.start != CleaningUp then s
    else Fail(s.(stopCompleted := ok, start := StartSettled,
                 seen := s.seen.(stopSucceeded := s.seen.stopSucceeded || ok)))
  }

  function OnCallLogin(s: Instance): Instance {
    if s.login != NoLogin || s.state != Ready || !s.client then s
    else s.(login := LoginRequested)
  }

  function OnLoginChallenge(s: Instance, loginId: string, authUrl: string): Instance {
    if s.login != LoginRequested then s
    else
      var t := s.(seen := s.seen.(challenge := Some(loginId)));
      if !ExactReady(t) then CancelLogin(t, loginId).(login := CancellingLate(loginId))
      else t.(loginId := Some(loginId), authUrl := Some(authUrl), login := Opening(loginId, authUrl))
  }

  function OnLoginRefused(s: Instance): Instance {
    if s.login != LoginRequested then s
    else if !ExactReady(s) then s.(login := LoginSettled)
    else Fail(s.(login := LoginSettled))
  }

  function OnLateCancelDone(s: Instance): Instance {
    if !s.login.CancellingLate? then s else s.(login := LoginSettled)
  }

  function OnUrlOpened(s: Instance, ok: bool): Instance {
    if !s.login.Opening? then s
    else
      var loginId, authUrl := s.login.loginId, s.login.authUrl;
      if ok && ExactReady(s) && s.loginId == Some(loginId) && s.authUrl == Some(authUrl) then
        SettleLogin(Transition(s, WaitingUser), loginId, authUrl)
      else CancelLogin(s, loginId).(login := CancellingOpened(loginId, authUrl))
  }

  function OnOpenedCancelDone(s: Instance): Instance {
    if !s.login.CancellingOpened? then s
    else
      var loginId, authUrl := s.login.loginId, s.login.authUrl;
      var t := s.(loginId := if s.loginId == Some(loginId) then None else s.loginId,
                  authUrl := if s.authUrl == Some(authUrl) then None else s.authUrl);
      SettleLogin(if !ExactReady(t) then t else Fail(t), loginId, authUrl)
  }

  function OnCallWait(s: Instance): Instance {
    if s.wait != NoWait || s.state != WaitingUser || !s.client || s.loginId.None? then s
    else s.(wait := AwaitingLogin(s.loginId.value))
  }

  function OnLoginCompletion(s: Instance, loginId: string, success: bool): Instance {
    if !s.wait.AwaitingLogin? then s
    else if s.state != WaitingUser || loginId != s.wait.loginId || !success then WaitRejected(s)
    else Transition(s.(loginId := None, authUrl := None, wait := WaitSettled), LoginCompleted)
  }

  function OnWaitFailed(s: Instance): Instance {
    if !s.wait.AwaitingLogin? then s else WaitRejected(s)
  }

  function OnCallReopen(s: Instance): Instance {
    if s.state != WaitingUser || !s.client || s.loginId.None? || s.authUrl.None? || s.reopen != NoReopen then s
    else s.(reopen := Reopening(s.loginId.value, s.authUrl.value))
  }

  function OnUrlReopened(s: Instance, ok: bool): Instance {
    if s.reopen == NoReopen then s
    else
      var t := s.(reopen := NoReopen);
      if !ok && ExactWaiting(s, s.reopen.loginId, s.reopen.authUrl) then Fail(t) else t
  }

  function OnCallRead(s: Instance, read: nat): Instance {
    if read in s.pendingReads || !s.client || !Readable(s.state) then s
    else s.(pendingReads := s.pendingReads[read := s.state])
  }

  function OnAccountRead(s: Instance, read: nat, ok: bool): Instance {
    if read !in s.pendingReads then s
    else
      var t := s.(pendingReads := s.pendingReads - {read});
      if !ok && s.state == s.pendingReads[read] then Fail(t) else t
  }

  function OnCallCancelLogin(s: Instance): Instance {
    if s.state != WaitingUser || !s.client || s.loginId.None? then s else StopInstance(s, true)
  }

  function OnCallStop(s: Instance): Instance {
    StopInstance(s, false)
  }

  function OnShutDown(s: Instance): Instance {
    StopInstance(s.(shuttingDown := true), false)
  }

  function OnStartAwaited(s: Instance): Instance {
    if !s.stop.AwaitingStart? || s.start != StartSettled then s else PerformStop(s, s.stop.cancelLogin)
  }

  function OnStopCancelDone(s: Instance, ok: bool): Instance {
    if !s.stop.StopCancelling? then s else s.(stop := StoppingClient(s.stop.wasFailed, !ok))
  }

  function OnClientStopped(s: Instance, ok: bool): Instance {
    if !s.stop.StoppingClient? then s else FinishStop(s, ok)
  }

  /** One atomic step of the instance. */
  function Step(s: Instance, e: Event): Instance {
    match e
    case CreateClient(ok) => OnCreateClient(s, ok)
    case StartClient(ok) => OnStartClient(s, ok)
    case CleanUpClient(ok) => OnCleanUpClient(s, ok)
    case CallLogin => OnCallLogin(s)
    case LoginChallenge(loginId, authUrl) => OnLoginChallenge(s, loginId, authUrl)
    case LoginRefused => OnLoginRefused(s)
    case LateCancelDone => OnLateCancelDone(s)
    case UrlOpened(ok) => OnUrlOpened(s, ok)
    case OpenedCancelDone => OnOpenedCancelDone(s)
    case CallWait => OnCallWait(s)
    case LoginCompletion(loginId, success) => OnLoginCompletion(s, loginId, success)
    case WaitFailed => OnWaitFailed(s)
    case CallReopen => OnCallReopen(s)
    case UrlReopened(ok) => OnUrlReopened(s, ok)
    case CallRead(read) => OnCallRead(s, read)
    case AccountRead(read, ok) => OnAccountRead(s, read, ok)
    case CallCancelLogin => OnCallCancelLogin(s)
    case CallStop => OnCallStop(s)
    case ShutDown => OnShutDown(s)
    case StartAwaited => OnStartAwaited(s)
    case StopCancelDone(ok) => OnStopCancelDone(s, ok)
    case ClientStopped(ok) => OnClientStopped(s, ok)
  }

  function Run(s: Instance, events: seq<Event>): Instance
    decreases |events|
  {
    if events == [] then s else Run(Step(s, events[0]), events[1..])
  }

  function Rank(p: Phase): nat {
    match p
    case Starting => 0
    case Ready => 1
    case WaitingUser => 2
    case LoginCompleted => 3
    case Stopping => 4
    case Failed => 5
    case Stopped => 6
  }

  /** The phases entered, each strictly above the one before, ending in the current one. */
  ghost predicate Climbs(s: Instance) {
    var path := [Starting] + s.seen.climbed;
    && (forall i, j :: 0 <= i < j < |path| ==> Rank(path[i]) < Rank(path[j]))
    && path[|path| - 1] == s.state
  }

  ghost predicate StartFits(s: Instance) {
    match s.start
    case Creating => s.state == Starting && !s.client
    case ClientStarting => s.state == Starting && s.client
    case CleaningUp => s.state == Starting && s.client
    case StartSettled => s.state != Starting && (s.client || s.state == Failed || s.state == Stopped)
  }

  predicate Readable(p: Phase) {
    p == Ready || p == WaitingUser || p == LoginCompleted
  }

  ghost predicate ReadsFit(pendingReads: map<nat, Phase>, client: bool) {
    forall read <- pendingReads :: Readable(pendingReads[read]) && client
  }

  ghost predicate LoginFits(s: Instance) {
    && (s.authUrl.Some? ==> s.state == Ready || s.state == WaitingUser)
    && (s.state == Starting ==> s.login == NoLogin)
    && (s.state == WaitingUser || s.state == LoginCompleted ==> s.login == LoginSettled)
    && (s.login.NoLogin? || s.login.LoginRequested? ==> s.seen.challenge.None? && s.loginId.None? && s.authUrl.None?)
    && (s.login.CancellingLate? ==> s.seen.challenge == Some(s.login.loginId) && s.login.loginId in s.seen.cancelled)
    && (s.login.CancellingOpened? ==> s.seen.challenge == Some(s.login.loginId) && s.login.loginId in s.seen.cancelled)
    && (s.login.Opening? ==>
          && s.seen.challenge == Some(s.login.loginId)
          && (s.state == Ready ==> s.loginId == Some(s.login.loginId) && s.authUrl == Some(s.login.authUrl)))
    && (s.login.LoginSettled? && s.seen.challenge.Some? ==> s.seen.held || s.seen.challenge.value in s.seen.cancelled)
    && (s.wait != NoWait || s.reopen != NoReopen ==> Rank(s.state) >= Rank(WaitingUser))
    && ReadsFit(s.pendingReads, s.client)
  }

  ghost predicate StopFits(s: Instance) {
    && (s.stopCompleted ==>
          && (s.state == Failed || s.state == Stopped)
          && s.start == StartSettled
          && (s.stop == NoStop || s.stop.AwaitingStart?)
          && (s.seen.stopSucceeded || !s.client))
    && (s.state == Stopped ==> s.stopCompleted)
    && (s.state == Stopping ==> s.stop.StopCancelling? || s.stop.StoppingClient?)
    && (s.stop.StopCancelling? || s.stop.StoppingClient? ==>
          && s.client
          && s.start == StartSettled
          && s.loginId.None?
          && s.state == if s.stop.wasFailed then Failed else Stopping)
    && (s.seen.stopResolved ==> s.stopCompleted)
  }

  ghost predicate Invariant(s: Instance) {
    && !s.seen.threw
    && Climbs(s)
    && StartFits(s)
    && LoginFits(s)
    && StopFits(s)
  }

  lemma InitialHolds()
    ensures Invariant(Initial())
  {
  }

  lemma TransitionClimbs(s: Instance, next: Phase)
    requires Climbs(s) && ValidTransition(s.state, next)
    ensures Climbs(Transition(s, next))
  {
    var path := [Starting] + s.seen.climbed;
    var longer := [Starting] + Transition(s, next).seen.climbed;
    assert longer == path + [next];
  }

  lemma ClimbsMatch(s: Instance, t: Instance)
    requires Climbs(s)
    requires (t.state == s.state && t.seen.climbed == s.seen.climbed)
      || (ValidTransition(s.state, t.state) && t.seen.climbed == s.seen.climbed + [t.state])
    ensures Climbs(t)
  {
    if t.state != s.state {
      TransitionClimbs(s, t.state);
    }
  }

  ghost predicate MovesOnce(s: Instance, t: Instance) {
    && t.seen.threw == s.seen.threw
    && ((t.state == s.state && t.seen.climbed == s.seen.climbed)
        || (ValidTransition(s.state, t.state) && t.seen.climbed == s.seen.climbed + [t.state]))
  }

  ghost predicate Fits(s: Instance) {
    StartFits(s) && LoginFits(s) && StopFits(s)
  }

  /** What every step keeps: its transition is allowed, and the suspended methods still fit. */
  ghost predicate Keeps(s: Instance, t: Instance) {
    MovesOnce(s, t) && Fits(t)
  }

  // Each step keeps the suspended methods fitting.

  lemma KeepsCreateClient(s: Instance, ok: bool)
    requires Fits(s)
    ensures Keeps(s, OnCreateClient(s, ok))
  {
  }

  lemma KeepsStartClient(s: Instance, ok: bool)
    requires Fits(s)
    ensures Keeps(s, OnStartClient(s, ok))
  {
    hide ReadsFit;
  }

  lemma KeepsCleanUpClient(s: Instance, ok: bool)
    requires Fits(s)
    ensures Keeps(s, OnCleanUpClient(s, ok))
  {
    hide ReadsFit;
  }

  lemma KeepsCallLogin(s: Instance)
    requires Fits(s)
    ensures Keeps(s, OnCallLogin(s))
  {
    hide ReadsFit;
  }

  lemma KeepsLoginChallenge(s: Instance, loginId: string, authUrl: string)
    requires Fits(s)
    ensures Keeps(s, OnLoginChallenge(s, loginId, authUrl))
  {
    hide ReadsFit;
  }

  lemma KeepsLoginRefused(s: Instance)
    requires Fits(s)
    ensures Keeps(s, OnLoginRefused(s))
  {
    hide ReadsFit;
  }

  lemma KeepsLateCancelDone(s: Instance)
    requires Fits(s)
    ensures Keeps(s, OnLateCancelDone(s))
  {
    hide ReadsFit;
  }

  lemma KeepsUrlOpened(s: Instance, ok: bool)
    requires Fits(s)
    ensures Keeps(s, OnUrlOpened(s, ok))
  {
    hide ReadsFit;
  }

  lemma KeepsOpenedCancelDone(s: Instance)
    requires Fits(s)
    ensures Keeps(s, OnOpenedCancelDone(s))
  {
    hide ReadsFit;
  }

  lemma KeepsCallWait(s: Instance)
    requires Fits(s)
    ensures Keeps(s, OnCallWait(s))
  {
    hide ReadsFit;
  }

  lemma KeepsLoginCompletion(s: Instance, loginId: string, success: bool)
    requires Fits(s)
    ensures Keeps(s, OnLoginCompletion(s, loginId, success))
  {
    hide ReadsFit;
  }

  lemma KeepsWaitFailed(s: Instance)
    requires Fits(s)
    ensures Keeps(s, OnWaitFailed(s))
  {
    hide ReadsFit;
  }

  lemma KeepsCallReopen(s: Instance)
    requires Fits(s)
    ensures Keeps(s, OnCallReopen(s))
  {
    hide ReadsFit;
  }

  lemma KeepsUrlReopened(s: Instance, ok: bool)
    requires Fits(s)
    ensures Keeps(s, OnUrlReopened(s, ok))
  {
    hide ReadsFit;
  }

  lemma KeepsCallRead(s: Instance, read: nat)
    requires Fits(s)
    ensures Keeps(s, OnCallRead(s, read))
  {
  }

  lemma KeepsAccountRead(s: Instance, read: nat, ok: bool)
    requires Fits(s)
    ensures Keeps(s, OnAccountRead(s, read, ok))
  {
    if read in s.pendingReads && !ok && s.state == s.pendingReads[read] {
      var t := OnAccountRead(s, read, ok);
      assert Readable(s.state) && s.client;
      assert t.state == Failed && t.start == s.start && t.stop == s.stop;
      assert StopFits(t);
    }
  }

  lemma KeepsCallCancelLogin(s: Instance)
    requires Fits(s)
    ensures Keeps(s, OnCallCancelLogin(s))
  {
    hide StopInstance, ReadsFit;
    KeepsStopInstance(s, true);
  }

  lemma KeepsCallStop(s: Instance)
    requires Fits(s)
    ensures Keeps(s, OnCallStop(s))
  {
    hide StopInstance, ReadsFit;
    KeepsStopInstance(s, false);
  }

  lemma KeepsShutDown(s: Instance)
    requires Fits(s)
    ensures Keeps(s, OnShutDown(s))
  {
    hide StopInstance, ReadsFit;
    KeepsStopInstance(s.(shuttingDown := true), false);
  }

  lemma KeepsStartAwaited(s: Instance)
    requires Fits(s)
    ensures Keeps(s, OnStartAwaited(s))
  {
    hide ReadsFit;
    hide PerformStop;
    if s.state != Starting && (s.stop == NoStop || s.stop.AwaitingStart?) {
      KeepsPerformStop(s, if s.stop.AwaitingStart? then s.stop.cancelLogin else false);
    }
  }

  lemma KeepsStopCancelDone(s: Instance, ok: bool)
    requires Fits(s)
    ensures Keeps(s, OnStopCancelDone(s, ok))
  {
    hide ReadsFit;
  }

  lemma KeepsClientStopped(s: Instance, ok: bool)
    requires Fits(s)
    ensures Keeps(s, OnClientStopped(s, ok))
  {
    hide ReadsFit;
    if s.stop.StoppingClient? {
      var t := OnClientStopped(s, ok);
      assert t.state == if s.stop.failed || !ok then Failed else Stopped;
      assert t.login == s.login && t.wait == s.wait && t.reopen == s.reopen && t.authUrl.None?;
      assert LoginFits(t);
    }
  }

  lemma KeepsStopInstance(s: Instance, cancelLogin: bool)
    requires Fits(s)
    ensures Keeps(s, StopInstance(s, cancelLogin))
  {
    hide PerformStop, ReadsFit;
    if s.state != Starting && s.stop == NoStop {
      KeepsPerformStop(s, cancelLogin);
    }
  }

  lemma KeepsPerformStop(s: Instance, cancelLogin: bool)
    requires Fits(s) && s.state != Starting
    requires s.stop == NoStop || s.stop.AwaitingStart?
    ensures Keeps(s, PerformStop(s, cancelLogin))
  {
    hide ReadsFit;
  }

  lemma StepMovesOnce(s: Instance, e: Event)
    requires Fits(s)
    ensures Keeps(s, Step(s, e))
  {
    hide StartFits, LoginFits, StopFits;
    hide OnCreateClient, OnStartClient, OnCleanUpClient, OnCallLogin, OnLoginChallenge, OnLoginRefused, OnLateCancelDone, OnUrlOpened, OnOpenedCancelDone, OnCallWait, OnLoginCompletion, OnWaitFailed, OnCallReopen, OnUrlReopened, OnCallRead, OnAccountRead, OnCallCancelLogin, OnCallStop, OnShutDown, OnStartAwaited, OnStopCancelDone, OnClientStopped;
    match e {
      case CreateClient(ok) => KeepsCreateClient(s, ok);
      case StartClient(ok) => KeepsStartClient(s, ok);
      case CleanUpClient(ok) => KeepsCleanUpClient(s, ok);
      case CallLogin => KeepsCallLogin(s);
      case LoginChallenge(loginId, authUrl) => KeepsLoginChallenge(s, loginId, authUrl);
      case LoginRefused => KeepsLoginRefused(s);
      case LateCancelDone => KeepsLateCancelDone(s);
      case UrlOpened(ok) => KeepsUrlOpened(s, ok);
      case OpenedCancelDone => KeepsOpenedCancelDone(s);
      case CallWait => KeepsCallWait(s);
      case LoginCompletion(loginId, success) => KeepsLoginCompletion(s, loginId, success);
      case WaitFailed => KeepsWaitFailed(s);
      case CallReopen => KeepsCallReopen(s);
      case UrlReopened(ok) => KeepsUrlReopened(s, ok);
      case CallRead(read) => KeepsCallRead(s, read);
      case AccountRead(read, ok) => KeepsAccountRead(s, read, ok);
      case CallCancelLogin => KeepsCallCancelLogin(s);
      case CallStop => KeepsCallStop(s);
      case ShutDown => KeepsShutDown(s);
      case StartAwaited => KeepsStartAwaited(s);
      case StopCancelDone(ok) => KeepsStopCancelDone(s, ok);
      case ClientStopped(ok) => KeepsClientStopped(s, ok);
    }
  }

  lemma StepKeepsInvariant(s: Instance, e: Event)
    requires Invariant(s)
    ensures Invariant(Step(s, e))
  {
    hide Step, StartFits, LoginFits, StopFits, ValidTransition, Climbs;
    StepMovesOnce(s, e);
    ClimbsMatch(s, Step(s, e));
  }

  /** The invariant holds after every interleaving of the asynchronous methods. */
  lemma {:induction false} RunKeepsInvariant(s: Instance, events: seq<Event>)
    requires Invariant(s)
    ensures Invariant(Run(s, events))
    decreases |events|
  {
    if events != [] {
      StepKeepsInvariant(s, events[0]);
      RunKeepsInvariant(Step(s, events[0]), events[1..]);
    }
  }

  lemma {:induction false} ClimbingIsShort(path: seq<Phase>, i: nat)
    requires forall j, k :: 0 <= j < k < |path| ==> Rank(path[j]) < Rank(path[k])
    requires i < |path|
    ensures i <= Rank(path[i]) <= 6
  {
    if i > 0 {
      ClimbingIsShort(path, i - 1);
    }
  }

  /**
   * Safety of the supervisor, in every state of every interleaving: no transition is ever
   * refused; the phase strictly climbs and changes at most six times; a resolved stop means
   * the client's own stop fulfilled or no client ever existed; a held URL means the instance
   * is ready or waiting; and a settled login start either held its challenge in waiting_user
   * or asked the client to cancel it.
   */
  lemma SupervisorSafety(events: seq<Event>)
    ensures var s := Run(Initial(), events);
      && !s.seen.threw
      && |s.seen.climbed| <= 6
      && (s.seen.stopResolved ==>
            && (s.state == Failed || s.state == Stopped)
            && (s.seen.stopSucceeded || !s.client))
      && (s.authUrl.Some? ==> s.state == Ready || s.state == WaitingUser)
      && (s.login == LoginSettled && s.seen.challenge.Some? ==>
            s.seen.held || s.seen.challenge.value in s.seen.cancelled)
  {
    hide Run;
    InitialHolds();
    RunKeepsInvariant(Initial(), events);
    var path := [Starting] + Run(Initial(), events).seen.climbed;
    ClimbingIsShort(path, |path| - 1);
  }

  /** At no point are two client.stop() calls of one instance outstanding. */
  lemma OneClientStopAtATime(events: seq<Event>)
    ensures var s := Run(Initial(), events);
      !(s.start == CleaningUp && (s.stop.StopCancelling? || s.stop.StoppingClient?))
  {
    hide Run;
    InitialHolds();
    RunKeepsInvariant(Initial(), events);
  }

  /** Once failed or stopped, an instance never becomes usable again. */
  lemma {:induction false} TerminalStaysTerminal(s: Instance, events: seq<Event>)
    requires Invariant(s) && Rank(s.state) >= Rank(Failed)
    ensures Rank(Run(s, events).state) >= Rank(s.state)
    decreases |events|
  {
    if events != [] {
      var t := Step(s, events[0]);
      StepKeepsInvariant(s, events[0]);
      PhaseNeverFalls(s, events[0]);
      TerminalStaysTerminal(t, events[1..]);
    }
  }

  lemma PhaseNeverFalls(s: Instance, e: Event)
    requires Invariant(s)
    ensures Rank(Step(s, e).state) >= Rank(s.state)
  {
    hide Step;
    StepMovesOnce(s, e);
  }
}
