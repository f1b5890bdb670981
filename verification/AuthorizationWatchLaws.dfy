/**
 * The session watcher call by call: which history items and stream events reach the callbacks,
 * said of the events themselves instead of a cursor.
 */
module AuthorizationWatchLaws {
  import opened Basics
  import opened AuthorizationWatch

  // ---- One answer, one event ----

  predicate SafeNumber(n: Num) {
    n.Num? && n.value.Floor as real == n.value && 0.0 <= n.value <= 9007199254740991.0
  }

  /** Not seen yet: above the cursor, or without a number to tell. */
  predicate News(cursor: Num, sequence: Num) {
    sequence.Missing? || (SafeNumber(sequence) && (cursor.Missing? || cursor.value < sequence.value))
  }

  /** The payload is about this session and this very event. */
  predicate ForSession(name: Name, sequence: Num, data: Option<Data>, expected: string) {
    match data
    case None => false
    case Some(Data(sessionId, number, session, _)) =>
      expected != "" && sessionId == expected && number == sequence
      && (name == StreamClosed || session == Some(expected))
  }

  function ReasonOf(data: Option<Data>): string {
    match data
    case Some(Data(_, _, _, Some(reason))) => reason
    case _ => "terminal"
  }

  function SessionCall(name: Name, sequence: Num): seq<Num> {
    if name == StreamClosed then [] else [sequence]
  }

  function CloseCall(name: Name, data: Option<Data>): seq<string> {
    if name == StreamClosed then [ReasonOf(data)] else []
  }

  /** An item calls back once if it is news about this session, fails if it is other news, and else does nothing. */
  lemma ItemCallsBack(w: Watcher, item: Item, expected: string)
    requires !w.failed
    ensures var d := Next(w, Sends(item), expected);
      var news, ours := News(w.cursor, item.sequence), ForSession(item.name, item.sequence, item.data, expected);
      && d.failed == (news && !ours)
      && d.cursor == (if news && ours then item.sequence else w.cursor)
      && d.sessions == w.sessions + (if news && ours then SessionCall(item.name, item.sequence) else [])
      && d.closes == w.closes + (if news && ours then CloseCall(item.name, item.data) else [])
      && d.streamClosed == (w.streamClosed || (item.name == StreamClosed && !d.failed))
  {
  }

  /** A page may continue at or above the cursor, or without saying where. */
  lemma PageContinues(w: Watcher, nextSequence: Num, expected: string)
    requires !w.failed
    ensures var d := Next(w, Continues(nextSequence), expected);
      var ahead := SafeNumber(nextSequence) && (w.cursor.Missing? || w.cursor.value <= nextSequence.value);
      d == if nextSequence.Missing? || ahead then w.(cursor := nextSequence) else w.(failed := true)
  {
  }

  /** A stream event with an id that the watcher can use. */
  predicate Usable(e: StreamEvent, expected: string) {
    && e.name != OtherName && e.id.Some? && e.id.value <= 9007199254740991
    && ForSession(e.name, Num(e.id.value as real), e.data, expected)
  }

  /** The code points of white space and line terminators. */
  predicate Trimmed(n: int) {
    || 9 <= n <= 13 || n == 32 || n == 160 || n == 5760 || 8192 <= n <= 8202
    || n == 8232 || n == 8233 || n == 8239 || n == 8287 || n == 12288 || n == 65279
  }

  /** A close without an id that says why. */
  predicate Unnumbered(e: StreamEvent, expected: string) {
    e.name == StreamClosed && e.id.None? && e.data.Some? && e.data.value.sessionId == expected
    && e.data.value.reason.Some? && exists c <- e.data.value.reason.value :: !Trimmed(c as int)
  }

  function NumberOf(e: StreamEvent): Num {
    match e.id
    case Some(id) => Num(id as real)
    case None => Missing
  }

  /** An event of the stream calls back at most once and never fails the watch. */
  lemma EventCallsBack(w: Watcher, e: StreamEvent, expected: string)
    ensures var d := OnStream(w, e, expected);
      var ours := Usable(e, expected) && (w.cursor.Missing? || w.cursor.value < e.id.value as real);
      && d.failed == w.failed && d.streamClosed == w.streamClosed
      && d.cursor == (if ours then NumberOf(e) else w.cursor)
      && d.sessions == w.sessions + (if ours then SessionCall(e.name, NumberOf(e)) else [])
      && d.closes == w.closes + (if ours || Unnumbered(e, expected) then CloseCall(e.name, e.data) else [])
  {
    assert forall c: char :: IsSpace(c) == Trimmed(c as int);
    hide IsSpace;
    if e.id.Some? {
      WholeNumber(e.id.value);
    }
  }

  lemma WholeNumber(n: nat)
    ensures (n as real).Floor == n
    ensures n as real <= 9007199254740991.0 <==> n <= 9007199254740991
  {
  }

  // ---- The stream ----

  /** A usable event above the start and above every usable event before it. */
  ghost predicate TakenAt(start: Num, events: seq<StreamEvent>, k: nat, expected: string) {
    && k < |events| && Usable(events[k], expected)
    && (start.Num? ==> start.value < events[k].id.value as real)
    && forall j | 0 <= j < k && Usable(events[j], expected) :: events[j].id.value < events[k].id.value
  }

  ghost function SessionsIn(start: Num, events: seq<StreamEvent>, expected: string): seq<Num> {
    if events == [] then []
    else
      var n := |events| - 1;
      SessionsIn(start, events[..n], expected) +
      if TakenAt(start, events, n, expected) then SessionCall(events[n].name, NumberOf(events[n])) else []
  }

  ghost function ClosesIn(start: Num, events: seq<StreamEvent>, expected: string): seq<string> {
    if events == [] then []
    else
      var n := |events| - 1;
      ClosesIn(start, events[..n], expected) +
      if TakenAt(start, events, n, expected) || Unnumbered(events[n], expected)
      then CloseCall(events[n].name, events[n].data) else []
  }

  /** The cursor is the highest of the start and the usable events. */
  ghost predicate Highest(start: Num, events: seq<StreamEvent>, cursor: Num, expected: string) {
    && (start.Num? ==> cursor.Num? && start.value <= cursor.value)
    && (forall e <- events | Usable(e, expected) :: cursor.Num? && e.id.value as real <= cursor.value)
    && (cursor == start || exists e <- events :: Usable(e, expected) && cursor == NumberOf(e))
  }

  lemma {:induction false} StreamSplits(w: Watcher, events: seq<StreamEvent>, e: StreamEvent, expected: string)
    ensures Stream(w, events + [e], expected) == OnStream(Stream(w, events, expected), e, expected)
    decreases |events|
  {
    hide OnStream;
    if events == [] {
      assert events + [e] == [e] && [e][1..] == [];
    } else {
      assert (events + [e])[1..] == events[1..] + [e];
      StreamSplits(OnStream(w, events[0], expected), events[1..], e, expected);
    }
  }

  lemma TakenIsHigher(start: Num, events: seq<StreamEvent>, e: StreamEvent, cursor: Num, expected: string)
    requires Highest(start, events, cursor, expected)
    ensures var taken := Usable(e, expected) && (cursor.Missing? || cursor.value < e.id.value as real);
      && TakenAt(start, events + [e], |events|, expected) == taken
      && Highest(start, events + [e], if taken then NumberOf(e) else cursor, expected)
  {
    hide Usable;
    var all := events + [e];
    assert forall x :: x in all <==> x in events || x == e;
    assert forall j | 0 <= j < |events| :: all[j] == events[j] && events[j] in events;
    if Usable(e, expected) {
      UsableIsNumbered(e, expected);
      if TakenAt(start, all, |events|, expected) && cursor.Num? && cursor != start {
        var x :| x in events && Usable(x, expected) && cursor == NumberOf(x);
        var j :| 0 <= j < |events| && events[j] == x;
        assert Usable(all[j], expected);
      }
    }
  }

  lemma UsableIsNumbered(e: StreamEvent, expected: string)
    requires Usable(e, expected)
    ensures e.id.Some?
  {
  }

  /**
   * Whatever the stream repeats, reorders or brings for other sessions, the callbacks are exactly
   * those of the usable events above the start and above all usable ones before them, in order,
   * and of the closes without an id that say why.
   */
  lemma {:induction false} StreamCallsBack(w: Watcher, events: seq<StreamEvent>, expected: string)
    ensures var d := Stream(w, events, expected);
      && d.sessions == w.sessions + SessionsIn(w.cursor, events, expected)
      && d.closes == w.closes + ClosesIn(w.cursor, events, expected)
      && Highest(w.cursor, events, d.cursor, expected)
      && d.failed == w.failed && d.streamClosed == w.streamClosed
    decreases |events|
  {
    hide OnStream, Usable, Unnumbered, TakenAt, Highest, SessionCall, CloseCall;
    if events == [] {
      NothingHigher(w.cursor, expected);
      assert w.sessions + [] == w.sessions && w.closes + [] == w.closes;
    } else {
      var n := |events| - 1;
      var init, e := events[..n], events[n];
      assert events == init + [e];
      StreamCallsBack(w, init, expected);
      StreamSplits(w, init, e, expected);
      var mid := Stream(w, init, expected);
      EventCallsBack(mid, e, expected);
      TakenIsHigher(w.cursor, init, e, mid.cursor, expected);
    }
  }

  lemma NothingHigher(start: Num, expected: string)
    ensures Highest(start, [], start, expected)
  {
  }

  // ---- The history ----

  function Number(a: Answer): Num {
    match a
    case Sends(item) => item.sequence
    case Continues(nextSequence) => nextSequence
  }

  /** An item with a safe number above the start and above every safe number before it. */
  ghost predicate NewAt(start: real, answers: seq<Answer>, k: nat) {
    && k < |answers| && answers[k].Sends? && SafeNumber(Number(answers[k]))
    && start < Number(answers[k]).value
    && forall j | 0 <= j < k && SafeNumber(Number(answers[j])) :: Number(answers[j]).value < Number(answers[k]).value
  }

  predicate OursAt(answers: seq<Answer>, k: nat, expected: string) {
    && k < |answers| && answers[k].Sends?
    && var item := answers[k].item;
       ForSession(item.name, item.sequence, item.data, expected)
  }

  ghost function SessionsSent(start: real, answers: seq<Answer>): seq<Num> {
    if answers == [] then []
    else
      var n := |answers| - 1;
      SessionsSent(start, answers[..n]) +
      if NewAt(start, answers, n) then SessionCall(answers[n].item.name, answers[n].item.sequence) else []
  }

  ghost function ClosesSent(start: real, answers: seq<Answer>): seq<string> {
    if answers == [] then []
    else
      var n := |answers| - 1;
      ClosesSent(start, answers[..n]) +
      if NewAt(start, answers, n) then CloseCall(answers[n].item.name, answers[n].item.data) else []
  }

  ghost predicate HighestSent(start: real, answers: seq<Answer>, cursor: Num) {
    && cursor.Num? && start <= cursor.value
    && (forall a <- answers | SafeNumber(Number(a)) :: Number(a).value <= cursor.value)
    && (cursor == Num(start) || exists a <- answers :: SafeNumber(Number(a)) && cursor == Number(a))
  }

  lemma {:induction false} FollowSplits(w: Watcher, answers: seq<Answer>, a: Answer, expected: string)
    requires Consumes(w, answers + [a], expected)
    ensures Consumes(w, answers, expected)
    ensures var mid := Follow(w, answers, expected);
      && !Stops(mid, a) && !Next(mid, a, expected).failed
      && Follow(w, answers + [a], expected) == Next(mid, a, expected)
    decreases |answers|
  {
    hide Next;
    var all := answers + [a];
    if answers == [] {
      assert all == [a] && all[1..] == [];
    } else {
      assert all[1..] == answers[1..] + [a];
      FollowSplits(Next(w, answers[0], expected), answers[1..], a, expected);
    }
  }

  lemma NewIsHigher(start: real, answers: seq<Answer>, a: Answer, cursor: Num)
    requires HighestSent(start, answers, cursor) && CompleteAnswer(a)
    requires a.Continues? ==> SafeNumber(Number(a)) && cursor.value <= Number(a).value
    ensures NewAt(start, answers + [a], |answers|) == (a.Sends? && News(cursor, Number(a)))
    ensures HighestSent(start, answers + [a], if News(cursor, Number(a)) then Number(a) else cursor)
  {
    hide SafeNumber;
    var all := answers + [a];
    assert forall x :: x in all <==> x in answers || x == a;
    assert forall j | 0 <= j < |answers| :: all[j] == answers[j] && answers[j] in answers;
    if NewAt(start, all, |answers|) && cursor != Num(start) {
      var x :| x in answers && SafeNumber(Number(x)) && cursor == Number(x);
      var j :| 0 <= j < |answers| && answers[j] == x;
      assert SafeNumber(Number(all[j]));
    }
  }

  /**
   * From a number, over answers that say theirs and are all taken, the callbacks are exactly those
   * of the items with a safe number above the start and above all before them, in order; and each
   * of those is about this session.
   */
  lemma {:induction false} HistoryCallsBack(w: Watcher, answers: seq<Answer>, expected: string)
    requires w.cursor.Num? && AllComplete(answers) && Consumes(w, answers, expected)
    ensures var d, start := Follow(w, answers, expected), w.cursor.value;
      && d.sessions == w.sessions + SessionsSent(start, answers)
      && d.closes == w.closes + ClosesSent(start, answers)
      && HighestSent(start, answers, d.cursor)
      && forall k: nat :: NewAt(start, answers, k) ==> OursAt(answers, k, expected)
    decreases |answers|
  {
    hide Next, NewAt, HighestSent, SessionCall, CloseCall, ForSession, SafeNumber;
    var start := w.cursor.value;
    if answers == [] {
      NothingSent(start);
      assert w.sessions + [] == w.sessions && w.closes + [] == w.closes;
    } else {
      var n := |answers| - 1;
      var init, a := answers[..n], answers[n];
      assert answers == init + [a];
      FollowSplits(w, init, a, expected);
      HistoryCallsBack(w, init, expected);
      var mid := Follow(w, init, expected);
      AnswerIsTaken(start, init, mid, a, expected);
      forall k: nat | NewAt(start, answers, k)
        ensures OursAt(answers, k, expected)
      {
        NewEarlier(start, init, a, k);
      }
    }
  }

  /** The last answer of those taken. */
  lemma AnswerIsTaken(start: real, init: seq<Answer>, mid: Watcher, a: Answer, expected: string)
    requires HighestSent(start, init, mid.cursor) && CompleteAnswer(a)
    requires !mid.failed && !Next(mid, a, expected).failed
    ensures var d, isNew := Next(mid, a, expected), NewAt(start, init + [a], |init|);
      && (isNew ==> a.Sends? && ForSession(a.item.name, a.item.sequence, a.item.data, expected))
      && d.sessions == mid.sessions + (if isNew then SessionCall(a.item.name, a.item.sequence) else [])
      && d.closes == mid.closes + (if isNew then CloseCall(a.item.name, a.item.data) else [])
      && HighestSent(start, init + [a], d.cursor)
  {
    hide Next, NewAt, SessionCall, CloseCall, ForSession;
    assert mid.cursor.Num?;
    hide HighestSent;
    match a {
      case Sends(item) =>
        ItemCallsBack(mid, item, expected);
        NewIsHigher(start, init, a, mid.cursor);
      case Continues(nextSequence) =>
        PageContinues(mid, nextSequence, expected);
        NewIsHigher(start, init, a, mid.cursor);
        assert mid.sessions + [] == mid.sessions && mid.closes + [] == mid.closes;
    }
  }

  lemma NothingSent(start: real)
    ensures HighestSent(start, [], Num(start)) && forall k: nat :: !NewAt(start, [], k)
  {
  }

  lemma NewEarlier(start: real, init: seq<Answer>, a: Answer, k: nat)
    requires NewAt(start, init + [a], k)
    ensures k < |init| ==> NewAt(start, init, k) && (init + [a])[k] == init[k]
    ensures k < |init| || k == |init|
  {
    var all := init + [a];
    assert forall j | 0 <= j < |init| :: all[j] == init[j];
  }
}
