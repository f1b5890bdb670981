/**
 * The event-stream client: readAuthenticatedSse and parseSseFrame as loops, and the reconnect
 * loop with its cursor. Network responses, aborts and delays are inputs of the loop.
 */
module EventStreamClient {
  import opened Basics
  import opened Decimal
  import opened ServerSentEvents

  /** split("\n") and the loop over the lines. */
  method ParseSseFrame(frame: string) returns (p: Parsed)
    ensures p == ParseFrame(frame)
  {
    hide ReadLine, Finish;
    var fields, rest, done := NO_FIELDS, frame, false;
    while !done
      invariant ReadLines(NO_FIELDS, frame) == if done then fields else ReadLines(fields, rest)
      decreases !done, |rest|
    {
      var end := IndexOf(rest, '\n');
      if end == |rest| {
        fields := ReadLine(fields, rest);
        done := true;
      } else {
        fields := ReadLine(fields, rest[..end]);
        rest := rest[end + 1..];
      }
    }
    p := Finish(fields);
  }

  class SseReader {
    var buffer: string
    var events: seq<SseEvent>
    var broken: bool

    function View(): Reading
      reads this
    {
      Reading(buffer, events, broken)
    }

    constructor ()
      ensures View() == NEW_READING
    {
      buffer, events, broken := "", [], false;
    }

    /** One pass of the outer loop: append the chunk, then hand over every complete frame. */
    method ReadChunk(chunk: string)
      modifies this
      ensures View() == Feed(old(View()), chunk)
      ensures old(events) <= events
    {
      hide Normalize, ParseFrame;
      if broken {
        return;
      }
      buffer := buffer + Normalize(chunk);
      ghost var end := Drain(View());
      var boundary := Boundary(buffer);
      while boundary < |buffer|
        invariant boundary == Boundary(buffer) && !broken && old(events) <= events
        invariant Drain(View()) == end
        decreases |buffer|
      {
        var frame := ParseSseFrame(buffer[..boundary]);
        buffer := buffer[boundary + 2..];
        if frame.Broken? {
          broken := true;
          return;
        }
        if frame.Event? {
          events := events + [frame.value];
        }
        boundary := Boundary(buffer);
      }
    }
  }

  /** A cursor as the script holds it; Math.max with a missing cursor is not a number. */
  datatype Cursor = Number(n: nat) | Undefined | NotANumber

  function Advance(cursor: Cursor, e: SseEvent): Cursor {
    if e.id.None? then cursor
    else if cursor.Number? then Number(if cursor.n < e.id.value then e.id.value else cursor.n)
    else NotANumber
  }

  function CursorAfter(start: Cursor, events: seq<SseEvent>): Cursor {
    if events == [] then start else Advance(CursorAfter(start, events[..|events| - 1]), events[|events| - 1])
  }

  /** From a numeric start the cursor is the largest of the start and the ids handed over. */
  lemma {:induction false} CursorIsLargestId(start: nat, events: seq<SseEvent>)
    ensures var c := CursorAfter(Number(start), events);
      && c.Number? && start <= c.n
      && (forall e <- events | e.id.Some? :: e.id.value <= c.n)
      && (c.n == start || exists e <- events :: e.id == Some(c.n))
  {
    if events != [] {
      CursorIsLargestId(start, events[..|events| - 1]);
      assert events == events[..|events| - 1] + [events[|events| - 1]];
    }
  }

  /** Without a starting cursor the first identified event makes it not a number for good. */
  lemma {:induction false} MissingCursorIsLost(events: seq<SseEvent>)
    ensures CursorAfter(Undefined, events) ==
      if exists e <- events :: e.id.Some? then NotANumber else Undefined
  {
    if events != [] {
      MissingCursorIsLost(events[..|events| - 1]);
      assert events == events[..|events| - 1] + [events[|events| - 1]];
    }
  }

  predicate EndsWith(s: string, suffix: string) {
    |suffix| <= |s| && s[|s| - |suffix|..] == suffix
  }

  predicate ShouldClose(e: SseEvent) {
    EndsWith(e.event, ".closed")
  }

  /** What one connection yields: refused for good, or chunks until it ends, fails or is aborted. */
  datatype Connection = Connection(refused: bool, chunks: seq<string>, fails: bool, aborted: bool)

  /** The starting cursor: an absent number passes the check, an unusable one becomes 0. */
  function StartCursor(after: Option<int>): Cursor {
    if after.None? then Undefined
    else if 0 <= after.value <= MAX_SAFE_INTEGER then Number(after.value)
    else Number(0)
  }

  /** What reading a connection's chunks comes to. */
  function Read(c: Connection): Reading {
    FeedAll(NEW_READING, c.chunks)
  }

  /** The events a connection hands over before it ends, fails or is aborted. */
  function Delivered(c: Connection): seq<SseEvent> {
    if c.refused then [] else Read(c).events
  }

  function AllDelivered(connections: seq<Connection>): seq<SseEvent> {
    if connections == [] then []
    else AllDelivered(connections[..|connections| - 1]) + Delivered(connections[|connections| - 1])
  }

  predicate HasTerminal(events: seq<SseEvent>) {
    exists e <- events :: ShouldClose(e)
  }

  /** The connection throws something worth a retry: it fails, or a frame does not parse. */
  predicate Throws(c: Connection) {
    !c.refused && (c.fails || Read(c).broken)
  }

  /** No connection is requested after this one. */
  predicate Ends(c: Connection) {
    c.refused || c.aborted || (!Throws(c) && HasTerminal(Delivered(c)))
  }

  /** Exactly the first n connections are requested: the loop goes on until one ends it. */
  ghost predicate Requests(connections: seq<Connection>, n: nat) {
    && n <= |connections|
    && (forall k | 0 <= k < n - 1 :: !Ends(connections[k]))
    && (n < |connections| ==> n > 0 && Ends(connections[n - 1]))
  }

  /** The reconnect loop: which connections are requested, with which cursors, and what they hand over. */
  method ConsumeEventStream(after: Option<int>, connections: seq<Connection>)
    returns (requested: seq<Cursor>, handed: seq<SseEvent>)
    ensures Requests(connections, |requested|)
    ensures requested != [] ==>
              (match after
               case None => requested[0] == Undefined
               case Some(n) => requested[0] == Number(if 0 <= n <= 9007199254740991 then n else 0))
    ensures handed == AllDelivered(connections[..|requested|])
    ensures forall k | 0 <= k < |requested| ::
              requested[k] == CursorAfter(StartCursor(after), AllDelivered(connections[..k]))
  {
    hide CursorAfter, AllDelivered, Delivered, Ends, Read, HasTerminal;
    var cursor := StartCursor(after);
    ghost var start := cursor;
    requested, handed := [], [];
    CursorAtStart(start);
    NothingDelivered(connections);
    assert start == match after
      case None => Undefined
      case Some(n) => Number(if 0 <= n <= 9007199254740991 then n else 0);
    for i := 0 to |connections|
      invariant |requested| == i
      invariant handed == AllDelivered(connections[..i])
      invariant cursor == CursorAfter(start, handed)
      invariant forall k | 0 <= k < i :: requested[k] == CursorAfter(start, AllDelivered(connections[..k]))
      invariant forall k | 0 <= k < i :: !Ends(connections[k])
    {
      requested := requested + [cursor];
      DeliveredOneMore(connections, i);
      EndsWhen(connections[i]);
      if connections[i].refused {
        return;
      }
      var events, broken := ReadConnection(connections[i]);
      var terminal;
      ghost var before := handed;
      cursor, handed, terminal := HandOver(start, cursor, handed, events);
      assert handed == AllDelivered(connections[..i + 1]);
      if connections[i].aborted || (terminal && !broken && !connections[i].fails) {
        return;
      }
    }
    assert connections[..|connections|] == connections;
  }

  /** The callback of one connection, run for each of its events. */
  method HandOver(ghost start: Cursor, cursor: Cursor, handed: seq<SseEvent>, events: seq<SseEvent>)
    returns (newCursor: Cursor, newHanded: seq<SseEvent>, terminal: bool)
    requires cursor == CursorAfter(start, handed)
    ensures newHanded == handed + events && newCursor == CursorAfter(start, newHanded)
    ensures terminal == HasTerminal(events)
  {
    hide CursorAfter, ShouldClose;
    newCursor, newHanded, terminal := cursor, handed, false;
    for j := 0 to |events|
      invariant newHanded == handed + events[..j]
      invariant newCursor == CursorAfter(start, newHanded)
      invariant terminal == HasTerminal(events[..j])
    {
      assert events[..j + 1] == events[..j] + [events[j]];
      CursorOneMore(start, newHanded, events[j]);
      newCursor := Advance(newCursor, events[j]);
      newHanded := newHanded + [events[j]];
      terminal := terminal || ShouldClose(events[j]);
    }
    assert events[..|events|] == events;
  }

  lemma EndsWhen(c: Connection)
    ensures Ends(c) <==> c.refused || c.aborted || (HasTerminal(Delivered(c)) && !Read(c).broken && !c.fails)
    ensures Delivered(c) == if c.refused then [] else Read(c).events
  {
    hide HasTerminal, Read;
  }

  /** The event's name ends in ".closed". */
  ghost predicate Closing(e: SseEvent) {
    exists name: string :: e.event == name + ".closed"
  }

  lemma ClosingByName(e: SseEvent)
    ensures ShouldClose(e) <==> Closing(e)
  {
    if ShouldClose(e) {
      assert e.event == e.event[..|e.event| - 7] + ".closed";
    }
    if name: string :| e.event == name + ".closed" {
      assert e.event[|name|..] == ".closed";
    }
  }

  /**
   * A connection is the last one exactly if it is refused or aborted, or its chunks are read to the
   * end without a failure and one of their events is named as a closing one.
   */
  lemma LastConnection(c: Connection)
    ensures Ends(c) <==>
      var r := FeedAll(NEW_READING, c.chunks);
      c.refused || c.aborted || (!r.broken && !c.fails && exists e <- r.events :: Closing(e))
  {
    hide ShouldClose, Closing, FeedAll;
    forall e: SseEvent ensures ShouldClose(e) <==> Closing(e) {
      ClosingByName(e);
    }
    EndsWhen(c);
  }

  lemma CursorAtStart(start: Cursor)
    ensures CursorAfter(start, []) == start
  {
  }

  lemma NothingDelivered(connections: seq<Connection>)
    ensures AllDelivered(connections[..0]) == []
  {
  }

  lemma CursorOneMore(start: Cursor, handed: seq<SseEvent>, e: SseEvent)
    ensures CursorAfter(start, handed + [e]) == Advance(CursorAfter(start, handed), e)
  {
    assert (handed + [e])[..|handed|] == handed;
  }

  lemma DeliveredOneMore(connections: seq<Connection>, i: nat)
    requires i < |connections|
    ensures AllDelivered(connections[..i + 1]) == AllDelivered(connections[..i]) + Delivered(connections[i])
  {
    assert connections[..i + 1][..i] == connections[..i];
  }

  // ---- When a terminal event ends the subscription ----

  /** A connection that hands over a terminal event, then throws, with another one left to request. */
  ghost predicate ThrowsAfterTerminal(connections: seq<Connection>, k: nat) {
    && k < |connections| - 1
    && (forall j | 0 <= j < k :: !Ends(connections[j]))
    && HasTerminal(Delivered(connections[k])) && Throws(connections[k]) && !connections[k].aborted
  }

  /**
   * A terminal event is followed by another request if and only if some connection that is
   * reached hands one over and throws afterwards, unaborted. In every other case the connection
   * that hands over the first terminal event is the last one requested.
   */
  lemma TerminalEndsUnlessItThrows(connections: seq<Connection>, n: nat)
    requires Requests(connections, n) && n > 0
    ensures HasTerminal(AllDelivered(connections[..n - 1])) <==> exists k: nat :: ThrowsAfterTerminal(connections, k)
  {
    hide Delivered, Read, AllDelivered, HasTerminal;
    TerminalComesFromOne(connections, n - 1);
    if HasTerminal(AllDelivered(connections[..n - 1])) {
      var k :| 0 <= k < n - 1 && HasTerminal(Delivered(connections[k]));
      assert !Ends(connections[k]);
      assert ThrowsAfterTerminal(connections, k);
    }
    if k: nat :| ThrowsAfterTerminal(connections, k) {
      assert !Ends(connections[k]);
      assert k < n - 1;
    }
  }

  lemma {:induction false} TerminalComesFromOne(connections: seq<Connection>, n: nat)
    requires n <= |connections|
    ensures HasTerminal(AllDelivered(connections[..n]))
      <==> exists k :: 0 <= k < n && HasTerminal(Delivered(connections[k]))
  {
    hide Delivered, ShouldClose;
    if n > 0 {
      DeliveredOneMore(connections, n - 1);
      TerminalComesFromOne(connections, n - 1);
      HasTerminalSplits(AllDelivered(connections[..n - 1]), Delivered(connections[n - 1]));
    }
  }

  lemma HasTerminalSplits(a: seq<SseEvent>, b: seq<SseEvent>)
    ensures HasTerminal(a + b) <==> HasTerminal(a) || HasTerminal(b)
  {
    hide ShouldClose;
  }

  const CLOSING := "event:.closed\ndata\n\n"

  /** A stream closes, its connection fails, and the closed stream is requested again. */
  lemma ClosedStreamIsRequestedAgain(again: Connection)
    ensures var connections := [Connection(false, [CLOSING], true, false), again];
      && Delivered(connections[0]) == [SseEvent(None, ".closed", "")]
      && ShouldClose(SseEvent(None, ".closed", ""))
      && ThrowsAfterTerminal(connections, 0)
      && forall n :: Requests(connections, n) <==> n == 2
  {
    hide Feed, FeedAll;
    var connections := [Connection(false, [CLOSING], true, false), again];
    ClosingIsRead();
    var e := SseEvent(None, ".closed", "");
    assert e in Delivered(connections[0]);
    assert !Ends(connections[0]);
  }

  lemma ClosingIsRead()
    ensures FeedAll(NEW_READING, [CLOSING]).events == [SseEvent(None, ".closed", "")]
  {
    hide Feed, FeedAll, Normalize;
    PlainTextStays(CLOSING);
    OneChunk(NEW_READING, CLOSING);
    ClosingFrame();
  }

  lemma ClosingFrame()
    requires Normalize(CLOSING) == CLOSING
    ensures Feed(NEW_READING, CLOSING).events == [SseEvent(None, ".closed", "")]
  {
    hide Drain, ReadLine, Normalize;
    assert "" + CLOSING == CLOSING == "event:.closed" + "\n" + "data" + "\n\n";
    DrainTwoLines(NEW_READING, "event:.closed", "data");
    EventLine();
    DataAfter(NO_FIELDS.(event := ".closed"));
  }

  lemma EventLine()
    ensures ReadLine(NO_FIELDS, "event:.closed") == NO_FIELDS.(event := ".closed")
  {
    hide IndexOf;
    var line := "event:.closed";
    ColonAfter("event", ".closed");
    assert line == "event" + (":" + ".closed");
    assert line[..5] == "event" && line[6..] == ".closed";
  }

  lemma DataAfter(f: Fields)
    ensures ReadLine(f, "data") == f.(data := f.data + [""])
  {
    hide IndexOf;
    NoColonNoNewline("data");
    assert "data"[..4] == "data";
  }

  lemma {:induction false} ColonAfter(a: string, b: string)
    requires ':' !in a
    ensures IndexOf(a + (":" + b), ':') == |a|
    decreases |a|
  {
    if a != "" {
      assert (a + (":" + b))[1..] == a[1..] + (":" + b);
      ColonAfter(a[1..], b);
    }
  }

  method ReadConnection(c: Connection) returns (events: seq<SseEvent>, broken: bool)
    ensures events == Read(c).events && broken == Read(c).broken
  {
    hide Feed;
    var chunks := c.chunks;
    var reader := new SseReader();
    ghost var end := FeedAll(NEW_READING, chunks);
    for i := 0 to |chunks|
      invariant FeedAll(reader.View(), chunks[i..]) == end
    {
      assert chunks[i..][1..] == chunks[i + 1..];
      reader.ReadChunk(chunks[i]);
    }
    events, broken := reader.events, reader.broken;
  }
}
