/**
 * The authorization session watcher: history pages, then the live stream, folded through one
 * cursor. Numbers that the server sends are JSON numbers or absent; comparing with an absent
 * number is false, as in the script.
 */
module AuthorizationWatch {
  import opened Basics

  datatype Num = Missing | Num(value: real)

  datatype Name = SessionChanged | SessionTerminal | StreamClosed | OtherName

  /** `session` is the id of the session projection, when there is one. */
  datatype Data = Data(sessionId: string, sequence: Num, session: Option<string>, reason: Option<string>)

  datatype Item = Item(name: Name, sequence: Num, data: Option<Data>)

  datatype Page = Page(items: seq<Item>, hasMore: bool, nextSequence: Num)

  datatype StreamEvent = StreamEvent(name: Name, id: Option<nat>, data: Option<Data>)

  /** What was called back with: the sequences of sessions, and the reasons of closes. */
  datatype Watcher = Watcher(cursor: Num, sessions: seq<Num>, closes: seq<string>, streamClosed: bool, failed: bool)

  /** validEventCursor, which lets an absent number pass. */
  predicate ValidCursor(n: Num) {
    n.Num? ==> n.value.Floor as real == n.value && 0.0 <= n.value <= MAX_SAFE_INTEGER as real
  }

  predicate AtMost(a: Num, b: Num) {
    a.Num? && b.Num? && a.value <= b.value
  }

  predicate Below(a: Num, b: Num) {
    a.Num? && b.Num? && a.value < b.value
  }

  predicate Projects(name: Name, sequence: Num, data: Option<Data>, expected: string) {
    && data.Some? && data.value.sessionId == expected
    && (name == StreamClosed || data.value.session == Some(expected))
    && data.value.sequence == sequence && data.value.sessionId != ""
  }

  function CloseReason(data: Data): string {
    if data.reason.Some? then data.reason.value else "terminal"
  }

  /** White space and line terminators, as trimming a string takes them off. */
  predicate IsSpace(c: char) {
    var n := c as int;
    0x09 <= n <= 0x0D || 0x2000 <= n <= 0x200A
    || n in {0x20, 0xA0, 0x1680, 0x2028, 0x2029, 0x202F, 0x205F, 0x3000, 0xFEFF}
  }

  predicate Blank(s: string) {
    forall c <- s :: IsSpace(c)
  }

  /** What a close without an id must say to be believed. */
  predicate ClosesConnection(data: Option<Data>, expected: string) {
    data.Some? && data.value.sessionId == expected && data.value.reason.Some? && !Blank(data.value.reason.value)
  }

  /** applyAuthorizationEvent; `failed` is its exception. */
  function Apply(w: Watcher, name: Name, sequence: Num, data: Option<Data>, expected: string): Watcher {
    if !ValidCursor(sequence) || AtMost(sequence, w.cursor) then w
    else if !Projects(name, sequence, data, expected) then w.(failed := true)
    else if name == StreamClosed then w.(cursor := sequence, closes := w.closes + [CloseReason(data.value)])
    else w.(cursor := sequence, sessions := w.sessions + [sequence])
  }

  function ApplyItems(w: Watcher, items: seq<Item>, expected: string): Watcher
    decreases |items|
  {
    if items == [] || w.failed then w
    else
      var next := Apply(w, items[0].name, items[0].sequence, items[0].data, expected);
      if next.failed then next
      else ApplyItems(next.(streamClosed := next.streamClosed || items[0].name == StreamClosed), items[1..], expected)
  }

  /** The history loop over the pages the server answers with. */
  function History(w: Watcher, pages: seq<Page>, expected: string): Watcher
    decreases |pages|
  {
    if pages == [] || w.failed then w
    else
      var next := ApplyItems(w, pages[0].items, expected);
      if next.failed || next.streamClosed || !pages[0].hasMore then next
      else if !ValidCursor(pages[0].nextSequence) || Below(pages[0].nextSequence, next.cursor)
      then next.(failed := true)
      else History(next.(cursor := pages[0].nextSequence), pages[1..], expected)
  }

  /** The stream callback. The transport catches its exceptions and goes on. */
  function OnStream(w: Watcher, e: StreamEvent, expected: string): Watcher {
    if e.name == OtherName then w
    else if e.id.None? then
      if e.name == StreamClosed && ClosesConnection(e.data, expected)
      then w.(closes := w.closes + [CloseReason(e.data.value)]) else w
    else Apply(w, e.name, Num(e.id.value as real), e.data, expected).(failed := w.failed)
  }

  function Stream(w: Watcher, events: seq<StreamEvent>, expected: string): Watcher
    decreases |events|
  {
    if events == [] then w else Stream(OnStream(w, events[0], expected), events[1..], expected)
  }

  /** An unusable starting cursor becomes 0. */
  function StartFrom(after: Num): Num {
    if ValidCursor(after) then after else Num(0.0)
  }

  function NewWatcher(after: Num): Watcher {
    Watcher(StartFrom(after), [], [], false, false)
  }

  function Watch(after: Num, pages: seq<Page>, events: seq<StreamEvent>, expected: string): Watcher {
    var w := History(NewWatcher(after), pages, expected);
    if w.failed || w.streamClosed then w else Stream(w, events, expected)
  }

  // ---- Order ----

  /** Every item says its sequence, and a page with a successor says where it continues. */
  predicate Complete(page: Page) {
    && (forall item <- page.items :: item.sequence.Num?)
    && (page.hasMore ==> page.nextSequence.Num?)
  }

  /** Strictly increasing numbers, all above the start if there is one. */
  ghost predicate Increasing(start: Num, sessions: seq<Num>) {
    && (forall s <- sessions :: s.Num? && (start.Num? ==> start.value < s.value))
    && (forall i, j :: 0 <= i < j < |sessions| ==> Below(sessions[i], sessions[j]))
  }

  ghost predicate Ordered(start: Num, w: Watcher) {
    && Increasing(start, w.sessions)
    && (w.cursor.Missing? ==> start.Missing? && w.sessions == [])
    && (w.cursor.Num? && start.Num? ==> start.value <= w.cursor.value)
    && (forall s <- w.sessions :: AtMost(s, w.cursor))
  }

  /** Ordered, and every sequence is one that an event can carry; without an id nothing is applied. */
  ghost predicate Sound(start: Num, w: Watcher, expected: string) {
    if expected == "" then w.sessions == []
    else Ordered(start, w) && ValidCursor(start) && forall s <- w.sessions :: ValidCursor(s)
  }

  lemma SoundIsIncreasing(start: Num, w: Watcher, expected: string)
    requires Sound(start, w, expected)
    ensures Increasing(start, w.sessions)
  {
  }

  lemma ApplyKeepsSound(start: Num, w: Watcher, name: Name, sequence: Num, data: Option<Data>, expected: string)
    requires Sound(start, w, expected) && (sequence.Num? || expected == "")
    ensures Sound(start, Apply(w, name, sequence, data, expected), expected)
  {
    var next := Apply(w, name, sequence, data, expected);
    if next.sessions != w.sessions {
      forall i | 0 <= i < |w.sessions| ensures Below(w.sessions[i], sequence) {
        assert w.sessions[i] in w.sessions;
      }
    }
  }

  lemma {:induction false} StreamKeepsSound(start: Num, w: Watcher, events: seq<StreamEvent>, expected: string)
    requires Sound(start, w, expected)
    ensures Sound(start, Stream(w, events, expected), expected)
    decreases |events|
  {
    hide Increasing, Apply;
    if events != [] {
      var e := events[0];
      if e.id.Some? {
        ApplyKeepsSound(start, w, e.name, Num(e.id.value as real), e.data, expected);
      }
      StreamKeepsSound(start, OnStream(w, e, expected), events[1..], expected);
    }
  }

  // ---- Answer by answer ----

  /** What the server says, one thing at a time: an item, or where the next page continues. */
  datatype Answer = Sends(item: Item) | Continues(nextSequence: Num)

  predicate CompleteAnswer(a: Answer) {
    match a
    case Sends(item) => item.sequence.Num?
    case Continues(nextSequence) => nextSequence.Num?
  }

  function SendsOf(items: seq<Item>): seq<Answer> {
    if items == [] then [] else [Sends(items[0])] + SendsOf(items[1..])
  }

  /** Nothing is asked after a page without a successor. */
  function AnswersOf(pages: seq<Page>): seq<Answer> {
    if pages == [] then []
    else if !pages[0].hasMore then SendsOf(pages[0].items)
    else SendsOf(pages[0].items) + ([Continues(pages[0].nextSequence)] + AnswersOf(pages[1..]))
  }

  /** The pages that bring these answers. */
  function PagesOf(answers: seq<Answer>): (pages: seq<Page>)
    ensures answers != [] ==> pages != []
  {
    if answers == [] then []
    else
      var rest := PagesOf(answers[1..]);
      match answers[0]
      case Continues(nextSequence) => [Page([], true, nextSequence)] + rest
      case Sends(item) =>
        if rest == [] then [Page([item], false, Missing)]
        else [rest[0].(items := [item] + rest[0].items)] + rest[1..]
  }

  lemma {:induction false} AnswersOfPagesOf(answers: seq<Answer>)
    ensures AnswersOf(PagesOf(answers)) == answers
  {
    if answers != [] {
      var rest, pages := PagesOf(answers[1..]), PagesOf(answers);
      AnswersOfPagesOf(answers[1..]);
      match answers[0]
      case Continues(_) => assert pages[1..] == rest;
      case Sends(item) =>
        assert answers == [Sends(item)] + answers[1..];
        if rest == [] {
          assert answers[1..] == [] && SendsOf([item]) == [Sends(item)] + SendsOf([]);
        } else {
          assert pages[1..] == rest[1..] && pages[0].items[1..] == rest[0].items;
          assert AnswersOf(pages) == [Sends(item)] + AnswersOf(rest);
        }
    }
  }

  /** One answer taken; `streamClosed` is tested only when a page has been read. */
  function Next(w: Watcher, a: Answer, expected: string): Watcher {
    match a
    case Sends(item) =>
      var next := Apply(w, item.name, item.sequence, item.data, expected);
      if next.failed then next else next.(streamClosed := next.streamClosed || item.name == StreamClosed)
    case Continues(nextSequence) =>
      if !ValidCursor(nextSequence) || Below(nextSequence, w.cursor) then w.(failed := true)
      else w.(cursor := nextSequence)
  }

  /** No answer is asked for any more. */
  predicate Stops(w: Watcher, a: Answer) {
    w.failed || (a.Continues? && w.streamClosed)
  }

  function Follow(w: Watcher, answers: seq<Answer>, expected: string): Watcher
    decreases |answers|
  {
    if answers == [] || Stops(w, answers[0]) then w else Follow(Next(w, answers[0], expected), answers[1..], expected)
  }

  lemma {:induction false} FollowItems(w: Watcher, items: seq<Item>, rest: seq<Answer>, expected: string)
    ensures Follow(w, SendsOf(items) + rest, expected) == Follow(ApplyItems(w, items, expected), rest, expected)
    decreases |items|
  {
    hide Apply;
    if items == [] {
      assert SendsOf(items) + rest == rest;
    } else {
      assert (SendsOf(items) + rest)[1..] == SendsOf(items[1..]) + rest;
      FollowItems(Next(w, Sends(items[0]), expected), items[1..], rest, expected);
    }
  }

  /** The history loop takes the answers one by one. */
  lemma {:induction false} HistoryFollows(w: Watcher, pages: seq<Page>, expected: string)
    ensures History(w, pages, expected) == Follow(w, AnswersOf(pages), expected)
    decreases |pages|
  {
    hide ApplyItems;
    if pages != [] {
      var next := ApplyItems(w, pages[0].items, expected);
      if pages[0].hasMore {
        var rest := [Continues(pages[0].nextSequence)] + AnswersOf(pages[1..]);
        FollowItems(w, pages[0].items, rest, expected);
        assert rest[1..] == AnswersOf(pages[1..]);
        FailedStays(w, pages[0].items, expected);
        HistoryFollows(next.(cursor := pages[0].nextSequence), pages[1..], expected);
      } else {
        assert SendsOf(pages[0].items) + [] == SendsOf(pages[0].items);
        FollowItems(w, pages[0].items, [], expected);
        FailedStays(w, pages[0].items, expected);
      }
    }
  }

  lemma FailedStays(w: Watcher, items: seq<Item>, expected: string)
    ensures w.failed ==> ApplyItems(w, items, expected) == w
  {
  }

  // ---- When order is kept ----

  /**
   * An incomplete answer that gets through (and so makes the cursor forget how far it was),
   * although there is something to remember: a numeric start or an applied session event.
   */
  predicate Harmful(start: Num, w: Watcher, a: Answer, expected: string) {
    var next := Next(w, a, expected);
    expected != "" && !CompleteAnswer(a) && !next.failed && (start.Num? || next.sessions != [])
  }

  predicate Harmless(start: Num, w: Watcher, answers: seq<Answer>, expected: string)
    decreases |answers|
  {
    answers == [] || Stops(w, answers[0])
    || (!Harmful(start, w, answers[0], expected)
        && Harmless(start, Next(w, answers[0], expected), answers[1..], expected))
  }

  predicate AllComplete(answers: seq<Answer>) {
    forall a <- answers :: CompleteAnswer(a)
  }

  lemma NextKeepsSound(start: Num, w: Watcher, a: Answer, expected: string)
    requires Sound(start, w, expected) && !w.failed && !Harmful(start, w, a, expected)
    ensures Sound(start, Next(w, a, expected), expected)
  {
    hide Increasing;
    if a.Sends? && (a.item.sequence.Num? || expected == "") {
      hide Apply;
      ApplyKeepsSound(start, w, a.item.name, a.item.sequence, a.item.data, expected);
    }
  }

  lemma {:induction false} HarmlessKeepsSound(start: Num, w: Watcher, answers: seq<Answer>, expected: string)
    requires Sound(start, w, expected) && Harmless(start, w, answers, expected)
    ensures Sound(start, Follow(w, answers, expected), expected)
    decreases |answers|
  {
    hide Sound, Next, Harmful;
    if answers != [] && !Stops(w, answers[0]) {
      NextKeepsSound(start, w, answers[0], expected);
      HarmlessKeepsSound(start, Next(w, answers[0], expected), answers[1..], expected);
    }
  }

  lemma {:induction false} CompleteIsHarmless(start: Num, w: Watcher, answers: seq<Answer>, expected: string)
    requires AllComplete(answers)
    ensures Harmless(start, w, answers, expected)
    decreases |answers|
  {
    hide Next;
    if answers != [] {
      assert answers[0] in answers;
      CompleteIsHarmless(start, Next(w, answers[0], expected), answers[1..], expected);
    }
  }

  lemma {:induction false} CutIsHarmless(start: Num, w: Watcher, answers: seq<Answer>, i: nat, more: seq<Answer>,
                                         expected: string)
    requires i <= |answers| && Harmless(start, w, answers, expected) && AllComplete(more)
    ensures Harmless(start, w, answers[..i] + more, expected)
    decreases |answers|
  {
    hide Next, Harmful, AllComplete;
    if i == 0 {
      assert answers[..i] + more == more;
      CompleteIsHarmless(start, w, more, expected);
    } else {
      assert (answers[..i] + more)[1..] == answers[1..][..i - 1] + more;
      if !Stops(w, answers[0]) {
        CutIsHarmless(start, Next(w, answers[0], expected), answers[1..], i - 1, more, expected);
      }
    }
  }

  /** A valid session event with the given sequence. */
  function EventOf(expected: string, sequence: Num): Item {
    Item(SessionChanged, sequence, Some(Data(expected, sequence, Some(expected), None)))
  }

  /** After a harmful answer some complete item, or none at all, puts the sessions out of order. */
  lemma HarmBreaksOrder(start: Num, w: Watcher, a: Answer, expected: string) returns (more: seq<Answer>)
    requires Sound(start, w, expected) && Harmful(start, w, a, expected)
    ensures AllComplete(more)
    ensures !Increasing(start, Follow(Next(w, a, expected), more, expected).sessions)
  {
    var next := Next(w, a, expected);
    if next.sessions != w.sessions {
      more := [];
      assert Missing in next.sessions;
    } else {
      var last := if w.sessions == [] then start else w.sessions[|w.sessions| - 1];
      assert w.sessions != [] ==> last in w.sessions;
      more := [Sends(EventOf(expected, last))];
      assert more[1..] == [];
      var again := Next(next, more[0], expected);
      assert again.sessions == w.sessions + [last];
      assert Follow(next, more, expected) == again;
      if w.sessions == [] {
        assert last in again.sessions;
      } else {
        assert again.sessions[|w.sessions| - 1] == last == again.sessions[|w.sessions|];
      }
    }
  }

  lemma {:induction false} HarmIsReached(start: Num, w: Watcher, answers: seq<Answer>, expected: string)
    returns (i: nat, more: seq<Answer>)
    requires Sound(start, w, expected) && !Harmless(start, w, answers, expected)
    ensures i <= |answers| && AllComplete(more)
    ensures !Increasing(start, Follow(w, answers[..i] + more, expected).sessions)
    decreases |answers|
  {
    hide Next, Increasing, Sound, AllComplete;
    var a, next := answers[0], Next(w, answers[0], expected);
    if Harmful(start, w, a, expected) {
      more := HarmBreaksOrder(start, w, a, expected);
      i := 1;
      assert (answers[..1] + more)[1..] == more;
    } else {
      NextKeepsSound(start, w, a, expected);
      var j;
      j, more := HarmIsReached(start, next, answers[1..], expected);
      i := j + 1;
      assert (answers[..i] + more)[1..] == answers[1..][..j] + more;
    }
  }

  /** What the watcher applies when the server gives these answers and the stream these events. */
  function Applied(after: Num, answers: seq<Answer>, events: seq<StreamEvent>, expected: string): seq<Num> {
    Watch(after, PagesOf(answers), events, expected).sessions
  }

  lemma AppliedFollows(after: Num, answers: seq<Answer>, events: seq<StreamEvent>, expected: string)
    ensures var w := Follow(NewWatcher(after), answers, expected);
      Applied(after, answers, events, expected)
      == (if w.failed || w.streamClosed then w else Stream(w, events, expected)).sessions
  {
    hide Follow, History, Stream, PagesOf, AnswersOf;
    AnswersOfPagesOf(answers);
    HistoryFollows(NewWatcher(after), PagesOf(answers), expected);
  }

  /** However the answers go on at any point, completely, and whatever the stream brings. */
  ghost predicate StaysInOrder(after: Num, answers: seq<Answer>, expected: string) {
    forall i, more, events | 0 <= i <= |answers| && AllComplete(more) ::
      Increasing(StartFrom(after), Applied(after, answers[..i] + more, events, expected))
  }

  lemma NewIsSound(after: Num, expected: string)
    ensures Sound(StartFrom(after), NewWatcher(after), expected)
  {
  }

  /**
   * Ordered, at-most-once delivery, exactly: whatever duplicates, reorderings and reconnects
   * follow, session events are applied with strictly increasing sequences above the starting
   * cursor, if and only if none of the answers is harmful. Every point is quantified over,
   * because a later page may restore the cursor.
   */
  lemma OrderIsKeptExactly(after: Num, answers: seq<Answer>, expected: string)
    ensures StaysInOrder(after, answers, expected)
      <==> Harmless(StartFrom(after), NewWatcher(after), answers, expected)
  {
    hide Harmless, Increasing, Sound, Applied, Follow, StartFrom, NewWatcher, AllComplete, Stream;
    var start, w := StartFrom(after), NewWatcher(after);
    NewIsSound(after, expected);
    if Harmless(start, w, answers, expected) {
      forall i, more, events | 0 <= i <= |answers| && AllComplete(more)
        ensures Increasing(start, Applied(after, answers[..i] + more, events, expected))
      {
        CutIsHarmless(start, w, answers, i, more, expected);
        HarmlessIsOrdered(after, answers[..i] + more, events, expected);
      }
    } else {
      var i, more := HarmIsReached(start, w, answers, expected);
      AppliedFollows(after, answers[..i] + more, [], expected);
      StreamOfNothing(Follow(w, answers[..i] + more, expected), expected);
      assert !Increasing(start, Applied(after, answers[..i] + more, [], expected));
    }
  }

  lemma StreamOfNothing(w: Watcher, expected: string)
    ensures Stream(w, [], expected) == w
  {
  }

  lemma HarmlessIsOrdered(after: Num, answers: seq<Answer>, events: seq<StreamEvent>, expected: string)
    requires Harmless(StartFrom(after), NewWatcher(after), answers, expected)
    ensures Increasing(StartFrom(after), Applied(after, answers, events, expected))
  {
    hide Harmless, Increasing, Applied, Follow, StartFrom, NewWatcher, Stream;
    NewIsSound(after, expected);
    HarmlessKeepsSound(StartFrom(after), NewWatcher(after), answers, expected);
    SoundIsOrdered(after, answers, events, expected);
  }

  lemma SoundIsOrdered(after: Num, answers: seq<Answer>, events: seq<StreamEvent>, expected: string)
    requires Sound(StartFrom(after), Follow(NewWatcher(after), answers, expected), expected)
    ensures Increasing(StartFrom(after), Applied(after, answers, events, expected))
  {
    hide Increasing, Applied, Follow, StartFrom, NewWatcher, Stream, Sound;
    var start, read := StartFrom(after), Follow(NewWatcher(after), answers, expected);
    AppliedFollows(after, answers, events, expected);
    StreamKeepsSound(start, read, events, expected);
    SoundIsIncreasing(start, read, expected);
    SoundIsIncreasing(start, Stream(read, events, expected), expected);
  }

  /**
   * Why every point counts: here a harmful answer got through, but the next page restored the
   * cursor, and from then on nothing can break the order.
   */
  lemma LaterPageRestoresCursor(more: seq<Answer>, events: seq<StreamEvent>)
    requires AllComplete(more)
    ensures var lost, restored := Continues(Missing), Continues(Num(100.0));
      && Harmful(Num(10.0), NewWatcher(Num(10.0)), lost, "s")
      && Increasing(Num(10.0), Applied(Num(10.0), [lost, restored] + more, events, "s"))
  {
    hide Applied, AllComplete;
    var start, w := Num(10.0), NewWatcher(Num(10.0));
    var answers := [Continues(Missing), Continues(Num(100.0))] + more;
    var lost := Next(w, answers[0], "s");
    var restored := Next(lost, answers[1], "s");
    assert answers[1..][1..] == more;
    assert Follow(w, answers, "s") == Follow(lost, answers[1..], "s") == Follow(restored, more, "s");
    CompleteIsHarmless(start, restored, more, "s");
    HarmlessKeepsSound(start, restored, more, "s");
    SoundIsOrdered(start, answers, events, "s");
  }

  /** Every answer is asked for, and none of them is refused. */
  predicate Consumes(w: Watcher, answers: seq<Answer>, expected: string)
    decreases |answers|
  {
    answers == [] ||
    (var next := Next(w, answers[0], expected);
     !Stops(w, answers[0]) && !next.failed && Consumes(next, answers[1..], expected))
  }

  lemma {:induction false} ConsumedHarm(start: Num, w: Watcher, answers: seq<Answer>, expected: string)
    requires start.Num? && expected != "" && Consumes(w, answers, expected)
    ensures Harmless(start, w, answers, expected) <==> AllComplete(answers)
    decreases |answers|
  {
    hide Next;
    if answers != [] {
      assert answers == [answers[0]] + answers[1..];
      ConsumedHarm(start, Next(w, answers[0], expected), answers[1..], expected);
    }
  }

  lemma {:induction false} CompletePages(pages: seq<Page>)
    requires forall i | 0 <= i < |pages| - 1 :: pages[i].hasMore
    ensures AllComplete(AnswersOf(pages)) <==> forall page <- pages :: Complete(page)
  {
    assert AllComplete([]);
    hide AllComplete, SendsOf;
    if pages != [] {
      var first, rest := pages[0], pages[1..];
      assert pages == [first] + rest;
      assert (forall page <- pages :: Complete(page)) <==> Complete(first) && forall page <- rest :: Complete(page);
      CompleteItems(first.items);
      if first.hasMore {
        forall i | 0 <= i < |rest| - 1 ensures rest[i].hasMore {
          assert rest[i] == pages[i + 1];
        }
        CompletePages(rest);
        AllCompleteJoins([Continues(first.nextSequence)], AnswersOf(rest));
        AllCompleteJoins(SendsOf(first.items), [Continues(first.nextSequence)] + AnswersOf(rest));
        OneComplete(Continues(first.nextSequence));
      } else {
        assert rest == [];
      }
    }
  }

  lemma OneComplete(a: Answer)
    ensures AllComplete([a]) <==> CompleteAnswer(a)
  {
    assert a in [a];
  }

  lemma AllCompleteJoins(a: seq<Answer>, b: seq<Answer>)
    ensures AllComplete(a + b) <==> AllComplete(a) && AllComplete(b)
  {
    assert forall x <- a :: x in a + b;
    assert forall x <- b :: x in a + b;
  }

  lemma {:induction false} CompleteItems(items: seq<Item>)
    ensures AllComplete(SendsOf(items)) <==> forall item <- items :: item.sequence.Num?
  {
    if items != [] {
      assert items == [items[0]] + items[1..];
      CompleteItems(items[1..]);
      AllCompleteJoins([Sends(items[0])], SendsOf(items[1..]));
      OneComplete(Sends(items[0]));
    }
  }

  /**
   * From a numeric start, for pages that are all read and accepted: no way of going on, at any
   * point, can put the sessions out of order if and only if every page is complete.
   */
  lemma PagesMustBeComplete(after: Num, pages: seq<Page>, expected: string)
    requires after.Num? && expected != ""
    requires forall i | 0 <= i < |pages| - 1 :: pages[i].hasMore
    requires Consumes(NewWatcher(after), AnswersOf(pages), expected)
    ensures StaysInOrder(after, AnswersOf(pages), expected) <==> forall page <- pages :: Complete(page)
  {
    hide StaysInOrder, Harmless, Consumes, AnswersOf, AllComplete;
    OrderIsKeptExactly(after, AnswersOf(pages), expected);
    ConsumedHarm(StartFrom(after), NewWatcher(after), AnswersOf(pages), expected);
    CompletePages(pages);
  }

  /** A first page that does not say where it continues lets an event below the start through. */
  lemma IncompletePageBreaksOrder()
    ensures var pages := [Page([], true, Missing), Page([EventOf("s", Num(3.0))], false, Missing)];
      && Watch(Num(10.0), pages, [], "s").sessions == [Num(3.0)]
      && !Increasing(Num(10.0), [Num(3.0)])
  {
    var event := EventOf("s", Num(3.0));
    var second := Page([event], false, Missing);
    var pages := [Page([], true, Missing), second];
    var w := NewWatcher(Num(10.0));
    assert pages[1..] == [second] && second.items[1..] == [];
    var lost := w.(cursor := Missing);
    assert History(w, pages, "s") == History(lost, [second], "s") == ApplyItems(lost, [event], "s");
    assert Num(3.0) in [Num(3.0)];
  }

  /** Complete pages, whatever is read of them, keep the order. */
  lemma WatcherDeliversInOrder(after: Num, pages: seq<Page>, events: seq<StreamEvent>, expected: string)
    requires forall page <- pages :: Complete(page)
    ensures Increasing(StartFrom(after), Watch(after, pages, events, expected).sessions)
  {
    hide Increasing, Follow, History, Stream, Harmless;
    var start, w := StartFrom(after), NewWatcher(after);
    CompleteAnswers(pages);
    CompleteIsHarmless(start, w, AnswersOf(pages), expected);
    NewIsSound(after, expected);
    HarmlessKeepsSound(start, w, AnswersOf(pages), expected);
    HistoryFollows(w, pages, expected);
    var read := History(w, pages, expected);
    StreamKeepsSound(start, read, events, expected);
    SoundIsIncreasing(start, read, expected);
    SoundIsIncreasing(start, Stream(read, events, expected), expected);
  }

  lemma {:induction false} CompleteAnswers(pages: seq<Page>)
    requires forall page <- pages :: Complete(page)
    ensures AllComplete(AnswersOf(pages))
  {
    if pages != [] {
      assert Complete(pages[0]);
      CompleteItems(pages[0].items);
      CompleteAnswers(pages[1..]);
    }
  }

  // ---- As it runs ----

  class AuthorizationWatcher {
    const expected: string
    var cursor: Num
    var sessions: seq<Num>
    var closes: seq<string>
    var streamClosed: bool

    function View(failed: bool): Watcher
      reads this
    {
      Watcher(cursor, sessions, closes, streamClosed, failed)
    }

    constructor (after: Num, expected: string)
      ensures this.expected == expected
      ensures View(false) == NewWatcher(after)
    {
      this.expected := expected;
      cursor := StartFrom(after);
      sessions, closes, streamClosed := [], [], false;
    }

    /** Calls the watcher back at most once and moves the cursor; false is the exception. */
    method ApplyEvent(name: Name, sequence: Num, data: Option<Data>) returns (ok: bool)
      modifies this`cursor, this`sessions, this`closes
      ensures View(!ok) == Apply(old(View(false)), name, sequence, data, expected)
    {
      if !ValidCursor(sequence) || AtMost(sequence, cursor) {
        return true;
      }
      if !Projects(name, sequence, data, expected) {
        return false;
      }
      if name == StreamClosed {
        closes := closes + [CloseReason(data.value)];
      } else {
        sessions := sessions + [sequence];
      }
      cursor := sequence;
      return true;
    }

    /** The history loop; false is an exception, which ends the watch. */
    method ReadHistory(pages: seq<Page>) returns (ok: bool)
      modifies this
      ensures View(!ok) == History(old(View(false)), pages, expected)
    {
      hide Apply;
      ghost var end := History(View(false), pages, expected);
      for i := 0 to |pages|
        invariant History(View(false), pages[i..], expected) == end
      {
        var items := pages[i].items;
        ghost var read := ApplyItems(View(false), items, expected);
        assert pages[i..][1..] == pages[i + 1..];
        for j := 0 to |items|
          invariant ApplyItems(View(false), items[j..], expected) == read
        {
          assert items[j..][1..] == items[j + 1..];
          var applied := ApplyEvent(items[j].name, items[j].sequence, items[j].data);
          if !applied {
            return false;
          }
          if items[j].name == StreamClosed {
            streamClosed := true;
          }
        }
        if streamClosed || !pages[i].hasMore {
          return true;
        }
        if !ValidCursor(pages[i].nextSequence) || Below(pages[i].nextSequence, cursor) {
          return false;
        }
        cursor := pages[i].nextSequence;
      }
      return true;
    }

    /** The stream callback; its exception goes to the transport, which goes on. */
    method OnEvent(e: StreamEvent)
      modifies this
      ensures View(false) == OnStream(old(View(false)), e, expected)
    {
      if e.name == OtherName {
        return;
      }
      if e.id.None? {
        if e.name == StreamClosed && ClosesConnection(e.data, expected) {
          closes := closes + [CloseReason(e.data.value)];
        }
        return;
      }
      var applied := ApplyEvent(e.name, Num(e.id.value as real), e.data);
    }
  }

  /** watchAiExecutorAuthorizationSession over what the server and the stream bring. */
  method WatchSession(after: Num, pages: seq<Page>, events: seq<StreamEvent>, expected: string)
    returns (outcome: Watcher)
    ensures outcome == Watch(after, pages, events, expected)
    ensures (forall page <- pages :: Complete(page)) ==> Increasing(StartFrom(after), outcome.sessions)
  {
    hide Increasing, Complete, History;
    if forall page <- pages :: Complete(page) {
      WatcherDeliversInOrder(after, pages, events, expected);
    }
    var watcher := new AuthorizationWatcher(after, expected);
    var ok := watcher.ReadHistory(pages);
    if !ok || watcher.streamClosed {
      return watcher.View(!ok);
    }
    ghost var end := Stream(watcher.View(false), events, expected);
    for i := 0 to |events|
      invariant watcher.expected == expected
      invariant Stream(watcher.View(false), events[i..], expected) == end
    {
      assert events[i..][1..] == events[i + 1..];
      watcher.OnEvent(events[i]);
    }
    return watcher.View(false);
  }
}
