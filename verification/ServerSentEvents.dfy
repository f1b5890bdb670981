/**
 * The authenticated event-stream reader: CRLF normalisation chunk by chunk, frame splitting
 * and frame parsing, against line-by-line interpretation (section 9.2.6 of the WHATWG HTML
 * standard, for the fields used). Text is decoded already; JSON decoding of the data is left out.
 */
module ServerSentEvents {
  import opened Basics
  import opened Decimal

  datatype SseEvent = SseEvent(id: Option<nat>, event: string, data: string)

  /** A frame parses to an event, to nothing, or breaks the connection. */
  datatype Parsed = Event(value: SseEvent) | Silent | Broken

  /** What a reader has handed over, and whether it broke. */
  datatype Reading = Reading(buffer: string, events: seq<SseEvent>, broken: bool)

  // ---- CRLF ----

  function Normalize(s: string): string {
    if s == "" then ""
    else if |s| >= 2 && s[0] == '\r' && s[1] == '\n' then "\n" + Normalize(s[2..])
    else [s[0]] + Normalize(s[1..])
  }

  /** A chunk boundary between CR and LF. */
  predicate Splits(a: string, b: string) {
    a != "" && b != "" && a[|a| - 1] == '\r' && b[0] == '\n'
  }

  lemma NormalizeOne(c: char, s: string)
    ensures Normalize([c] + s) == if Splits([c], s) then Normalize(s) else [c] + Normalize(s)
  {
    var t := [c] + s;
    assert t[1..] == s;
    if Splits([c], s) {
      assert t[2..] == s[1..];
    }
  }

  /** Normalising piece by piece is normalising the whole unless the cut falls inside a CRLF. */
  lemma {:induction false} NormalizePieces(a: string, b: string)
    ensures |Normalize(a + b)| == |Normalize(a)| + |Normalize(b)| - (if Splits(a, b) then 1 else 0)
    ensures !Splits(a, b) ==> Normalize(a + b) == Normalize(a) + Normalize(b)
    decreases |a|
  {
    hide Normalize;
    NormalizeNothing();
    if a == "" {
      assert a + b == b;
    } else {
      var c, rest := a[0], a[1..];
      assert a == [c] + rest && a + b == [c] + (rest + b);
      NormalizeOne(c, rest);
      NormalizeOne(c, rest + b);
      SplitsMoves(c, rest, b);
      hide Splits;
      NormalizePieces(rest, b);
      if rest == "" {
        assert rest + b == b;
      }
    }
  }

  lemma SplitsMoves(c: char, rest: string, b: string)
    ensures rest != "" ==> Splits([c] + rest, b) == Splits(rest, b) && Splits([c], rest + b) == Splits([c], rest)
    ensures rest == "" ==> Splits([c] + rest, b) == Splits([c], b) && !Splits([c], rest) && !Splits(rest, b)
  {
    assert rest == "" ==> [c] + rest == [c];
  }

  lemma NormalizeNothing()
    ensures Normalize("") == ""
  {
  }

  function Concat(chunks: seq<string>): string {
    if chunks == [] then "" else chunks[0] + Concat(chunks[1..])
  }

  function NormalizeEach(chunks: seq<string>): string {
    if chunks == [] then "" else Normalize(chunks[0]) + NormalizeEach(chunks[1..])
  }

  /** How many chunk boundaries fall inside a CRLF of the whole text. */
  function Cuts(chunks: seq<string>): nat {
    if chunks == [] then 0
    else (if Splits(chunks[0], Concat(chunks[1..])) then 1 else 0) + Cuts(chunks[1..])
  }

  /**
   * The reader sees the normalised text if and only if no chunk boundary cuts a CRLF; each cut
   * leaves one carriage return behind.
   */
  lemma {:induction false} NormalizingIsExact(chunks: seq<string>)
    ensures |NormalizeEach(chunks)| == |Normalize(Concat(chunks))| + Cuts(chunks)
    ensures NormalizeEach(chunks) == Normalize(Concat(chunks)) <==> Cuts(chunks) == 0
  {
    if chunks != [] {
      NormalizingIsExact(chunks[1..]);
      NormalizePieces(chunks[0], Concat(chunks[1..]));
    }
  }

  // ---- Frames ----

  /** Two newlines in a row. */
  predicate BlankAt(s: string, k: int) {
    0 <= k && k + 1 < |s| && s[k] == '\n' && s[k + 1] == '\n'
  }

  /** indexOf("\n\n"). */
  function Boundary(s: string): (i: nat)
    ensures i <= |s|
    ensures i < |s| ==> BlankAt(s, i)
    ensures forall k | 0 <= k < i :: !BlankAt(s, k)
  {
    if |s| < 2 then |s|
    else if s[0] == '\n' && s[1] == '\n' then 0
    else
      assert forall k | 0 < k < |s| :: BlankAt(s, k) == BlankAt(s[1..], k - 1);
      1 + Boundary(s[1..])
  }

  /** What the first blank line is known by. */
  lemma BoundaryOf(s: string, i: nat)
    requires BlankAt(s, i) && forall k | 0 <= k < i :: !BlankAt(s, k)
    ensures Boundary(s) == i
  {
    hide Boundary;
  }

  lemma NoBoundaryIn(s: string)
    requires forall k | 0 <= k < |s| :: !BlankAt(s, k)
    ensures Boundary(s) == |s|
  {
    hide Boundary;
  }

  function IndexOf(s: string, c: char): (i: nat)
    ensures i <= |s|
  {
    if s == "" || s[0] == c then 0 else 1 + IndexOf(s[1..], c)
  }

  /** Fields collected so far; `bad` once an id was not a safe decimal number. */
  datatype Fields = Fields(id: Option<nat>, event: string, data: seq<string>, bad: bool)

  const NO_FIELDS := Fields(None, "message", [], false)

  function FieldValue(line: string): string {
    var separator := IndexOf(line, ':');
    if separator == |line| then ""
    else
      var raw := line[separator + 1..];
      if raw != "" && raw[0] == ' ' then raw[1..] else raw
  }

  function ReadLine(f: Fields, line: string): Fields {
    if line == "" || line[0] == ':' then f
    else
      var field, value := line[..IndexOf(line, ':')], FieldValue(line);
      if field == "id" then
        if value != "" && AllDigitChars(value) && Value(value) <= MAX_SAFE_INTEGER
        then f.(id := Some(Value(value)))
        else f.(bad := true)
      else if field == "event" then f.(event := if value == "" then "message" else value)
      else if field == "data" then f.(data := f.data + [value])
      else f
  }

  function Join(lines: seq<string>): string {
    if lines == [] then "" else if |lines| == 1 then lines[0] else lines[0] + "\n" + Join(lines[1..])
  }

  function Finish(f: Fields): Parsed {
    if f.bad then Broken
    else if f.data == [] then Silent
    else Event(SseEvent(f.id, f.event, Join(f.data)))
  }

  /** split("\n"), read line by line. */
  function ReadLines(f: Fields, s: string): Fields
    decreases |s|
  {
    var end := IndexOf(s, '\n');
    if end == |s| then ReadLine(f, s) else ReadLines(ReadLine(f, s[..end]), s[end + 1..])
  }

  function ParseFrame(frame: string): Parsed {
    Finish(ReadLines(NO_FIELDS, frame))
  }

  function Hand(r: Reading, p: Parsed): Reading {
    match p
    case Event(value) => r.(events := r.events + [value])
    case Silent => r
    case Broken => r.(broken := true)
  }

  /** The inner loop over the buffer. */
  function Drain(r: Reading): Reading
    decreases |r.buffer|
  {
    var boundary := Boundary(r.buffer);
    if boundary == |r.buffer| then r
    else
      var next := Hand(r.(buffer := r.buffer[boundary + 2..]), ParseFrame(r.buffer[..boundary]));
      if next.broken then next else Drain(next)
  }

  function Feed(r: Reading, chunk: string): Reading {
    if r.broken then r else Drain(r.(buffer := r.buffer + Normalize(chunk)))
  }

  function FeedAll(r: Reading, chunks: seq<string>): Reading
    decreases |chunks|
  {
    if chunks == [] then r else FeedAll(Feed(r, chunks[0]), chunks[1..])
  }

  const NEW_READING := Reading("", [], false)

  /** Once broken, the rest of the buffer is never read. */
  function Observed(r: Reading): Reading {
    if r.broken then r.(buffer := "") else r
  }

  lemma BoundaryStays(s: string, more: string)
    requires Boundary(s) < |s|
    ensures Boundary(s + more) == Boundary(s)
  {
    hide Boundary;
    var i := Boundary(s);
    assert forall k | 0 <= k <= i :: BlankAt(s + more, k) == BlankAt(s, k);
    BoundaryOf(s + more, i);
  }

  /** Draining, then reading more, is draining it all. */
  lemma {:induction false} DrainTwice(r: Reading, more: string)
    requires !r.broken
    ensures var d := Drain(r);
      Observed(if d.broken then d else Drain(d.(buffer := d.buffer + more)))
      == Observed(Drain(r.(buffer := r.buffer + more)))
    decreases |r.buffer|
  {
    hide ParseFrame, Boundary, Hand;
    var boundary := Boundary(r.buffer);
    if boundary < |r.buffer| {
      var rest := r.buffer[boundary + 2..];
      BoundaryStays(r.buffer, more);
      PrefixStays(r.buffer, more, boundary);
      SuffixGrows(r.buffer, more, boundary + 2);
      var p := ParseFrame(r.buffer[..boundary]);
      HandIgnoresBuffer(r, p, rest);
      HandIgnoresBuffer(r, p, rest + more);
      var next := Hand(r.(buffer := rest), p);
      assert Hand(r.(buffer := rest + more), p) == next.(buffer := next.buffer + more);
      if !next.broken {
        DrainTwice(next, more);
      }
    }
  }

  lemma PrefixStays(s: string, more: string, i: nat)
    requires i <= |s|
    ensures (s + more)[..i] == s[..i]
  {
  }

  lemma SuffixGrows(s: string, more: string, i: nat)
    requires i <= |s|
    ensures (s + more)[i..] == s[i..] + more
  {
  }

  lemma HandIgnoresBuffer(r: Reading, p: Parsed, buffer: string)
    ensures Hand(r.(buffer := buffer), p) == Hand(r, p).(buffer := buffer)
  {
  }

  /** However the text is cut into chunks, the reader ends as if it had come in one piece. */
  lemma {:induction false} FeedAllIsDrain(r: Reading, chunks: seq<string>)
    requires !r.broken && Drain(r) == r
    ensures Observed(FeedAll(r, chunks)) == Observed(Drain(r.(buffer := r.buffer + NormalizeEach(chunks))))
    decreases |chunks|
  {
    hide Drain, ParseFrame, Normalize;
    if chunks == [] {
      assert r.buffer + "" == r.buffer;
    } else {
      var start := r.(buffer := r.buffer + Normalize(chunks[0]));
      var first := Drain(start);
      var rest := NormalizeEach(chunks[1..]);
      assert r.buffer + NormalizeEach(chunks) == start.buffer + rest;
      DrainTwice(start, rest);
      if first.broken {
        BrokenStays(first, chunks[1..]);
      } else {
        DrainIsDone(start);
        FeedAllIsDrain(first, chunks[1..]);
      }
    }
  }

  lemma {:induction false} BrokenStays(r: Reading, chunks: seq<string>)
    requires r.broken
    ensures FeedAll(r, chunks) == r
    decreases |chunks|
  {
    if chunks != [] {
      BrokenStays(r, chunks[1..]);
    }
  }

  lemma {:induction false} DrainIsDone(r: Reading)
    ensures var d := Drain(r); d.broken || Drain(d) == d
    decreases |r.buffer|
  {
    hide ParseFrame, Boundary;
    var boundary := Boundary(r.buffer);
    if boundary < |r.buffer| {
      DrainIsDone(Hand(r.(buffer := r.buffer[boundary + 2..]), ParseFrame(r.buffer[..boundary])));
    }
  }

  /**
   * Chunking is invisible: two ways of cutting the same text, neither cutting a CRLF, hand
   * over the same events in the same order and break at the same point.
   */
  lemma ChunkingIsInvisible(a: seq<string>, b: seq<string>)
    requires Concat(a) == Concat(b) && Cuts(a) == 0 && Cuts(b) == 0
    ensures Observed(FeedAll(NEW_READING, a)) == Observed(FeedAll(NEW_READING, b))
  {
    NormalizingIsExact(a);
    NormalizingIsExact(b);
    FeedAllIsDrain(NEW_READING, a);
    FeedAllIsDrain(NEW_READING, b);
  }

  // ---- Against line-by-line interpretation ----

  /**
   * The standard's reading: lines are processed as they end, and a blank line dispatches what
   * its fields describe and forgets them.
   */
  function Interpret(r: Reading, f: Fields, line: string, text: string): Reading
    decreases |text|
  {
    if text == "" then r
    else if text[0] != '\n' then Interpret(r, f, line + [text[0]], text[1..])
    else if line != "" then Interpret(r, ReadLine(f, line), "", text[1..])
    else
      var next := Hand(r, Finish(f));
      if next.broken then next else Interpret(next, NO_FIELDS, "", text[1..])
  }

  /** `line + s` ends a frame: the first blank line of `line + s + "\n\n"` comes right after it. */
  predicate EndsFrame(line: string, s: string) {
    Boundary(line + s + "\n\n") == |line + s| && '\n' !in line
  }

  lemma {:induction false} LineEnd(line: string, s: string)
    requires '\n' !in line
    ensures IndexOf(line + ("\n" + s), '\n') == |line|
    ensures IndexOf(line, '\n') == |line|
    decreases |line|
  {
    if line != "" {
      assert (line + ("\n" + s))[1..] == line[1..] + ("\n" + s);
      LineEnd(line[1..], s);
    }
  }

  lemma ReadLinesStep(f: Fields, line: string, s: string)
    requires '\n' !in line
    ensures ReadLines(f, line + ("\n" + s)) == ReadLines(ReadLine(f, line), s)
    ensures ReadLines(f, line) == ReadLine(f, line)
  {
    LineEnd(line, s);
    var all := line + ("\n" + s);
    assert all[..|line|] == line && all[|line| + 1..] == s;
  }

  /** A newline inside a frame ends a nonblank line, unless it opens the frame. */
  lemma NewlineInside(line: string, s: string)
    requires s != "" && s[0] == '\n' && EndsFrame(line, s)
    ensures s[1..] != "" && s[1] != '\n' && EndsFrame("", s[1..])
  {
    hide Boundary;
    var all := line + s + "\n\n";
    assert all[|line|] == '\n' && !BlankAt(all, |line|);
    assert all[|line| + 1] != '\n';
    var rest := "" + s[1..] + "\n\n";
    assert forall k | 0 <= k < |rest| :: rest[k] == all[|line| + 1 + k];
    forall k | 0 <= k < |s| - 1 ensures !BlankAt(rest, k) {
      assert !BlankAt(all, |line| + 1 + k);
      assert rest[k + 1] == all[|line| + 1 + (k + 1)];
    }
    BoundaryOf(rest, |s| - 1);
  }

  lemma {:induction false} FrameIsInterpreted(r: Reading, f: Fields, line: string, s: string, rest: string)
    requires !r.broken && EndsFrame(line, s) && (line == "" && s != "" && s[0] == '\n' ==> f == NO_FIELDS)
    ensures Interpret(r, f, line, s + "\n\n" + rest) ==
      var next := Hand(r, Finish(ReadLines(f, line + s)));
      if next.broken then next else Interpret(next, NO_FIELDS, "", rest)
    decreases |s|
  {
    hide ReadLine, Finish, Boundary;
    var text := s + "\n\n" + rest;
    if s == "" {
      assert text[1..] == "\n" + rest && ("\n" + rest)[1..] == rest;
      assert line + s == line;
      ReadLinesStep(f, line, "");
      BlankLine(f);
    } else {
      assert text[1..] == s[1..] + "\n\n" + rest;
      if s[0] != '\n' {
        assert (line + [s[0]]) + s[1..] == line + s;
        FrameIsInterpreted(r, f, line + [s[0]], s[1..], rest);
      } else {
        NewlineInside(line, s);
        assert line + s == line + ("\n" + s[1..]);
        ReadLinesStep(f, line, s[1..]);
        BlankLine(f);
        assert "" + s[1..] == s[1..];
        FrameIsInterpreted(r, ReadLine(f, line), "", s[1..], rest);
      }
    }
  }

  lemma BlankLine(f: Fields)
    ensures ReadLine(f, "") == f && Finish(NO_FIELDS) == Silent
  {
  }

  /** Text without a frame end dispatches nothing. */
  lemma {:induction false} RestIsInterpreted(r: Reading, f: Fields, line: string, s: string)
    requires !r.broken && Boundary(line + s) == |line + s| && '\n' !in line
    requires line == "" && s != "" && s[0] == '\n' ==> f == NO_FIELDS
    ensures Interpret(r, f, line, s) == r
    decreases |s|
  {
    hide ReadLine, Finish, Boundary;
    if s != "" {
      var all := line + s;
      assert all[|line|] == s[0];
      if s[0] != '\n' {
        assert (line + [s[0]]) + s[1..] == all;
        RestIsInterpreted(r, f, line + [s[0]], s[1..]);
      } else {
        BlankLine(f);
        var rest := "" + s[1..];
        RestHasNoBlank(line, s);
        assert !BlankAt(all, |line|);
        assert |s| > 1 ==> all[|line| + 1] == s[1] && s[1] != '\n';
        RestIsInterpreted(r, ReadLine(f, line), "", s[1..]);
      }
    }
  }

  lemma RestHasNoBlank(line: string, s: string)
    requires s != "" && Boundary(line + s) == |line + s|
    ensures Boundary("" + s[1..]) == |"" + s[1..]|
  {
    hide Boundary;
    var all, rest := line + s, "" + s[1..];
    assert forall k | 0 <= k < |rest| :: rest[k] == all[|line| + 1 + k];
    forall k | 0 <= k < |rest| ensures !BlankAt(rest, k) {
      assert !BlankAt(all, |line| + 1 + k);
      assert k + 1 < |rest| ==> rest[k + 1] == all[|line| + 1 + (k + 1)];
    }
    NoBoundaryIn(rest);
  }

  /** One frame of the loop, read as the standard reads it. */
  lemma FrameStep(r: Reading)
    requires !r.broken && Boundary(r.buffer) < |r.buffer|
    ensures var b := Boundary(r.buffer);
      var next := Hand(r.(buffer := r.buffer[b + 2..]), ParseFrame(r.buffer[..b]));
      Interpret(r.(buffer := ""), NO_FIELDS, "", r.buffer) ==
      if next.broken then next.(buffer := "")
      else Interpret(next.(buffer := ""), NO_FIELDS, "", next.buffer)
  {
    hide ReadLines, Finish, Interpret, EndsFrame;
    var b := Boundary(r.buffer);
    var frame, rest := r.buffer[..b], r.buffer[b + 2..];
    assert r.buffer == frame + "\n\n" + rest;
    FrameEnds(r.buffer);
    assert "" + frame == frame;
    FrameIsInterpreted(r.(buffer := ""), NO_FIELDS, "", frame, rest);
  }

  /** Splitting into frames hands over exactly what reading line by line dispatches. */
  lemma {:induction false} DrainIsInterpretation(r: Reading)
    requires !r.broken
    ensures Observed(Drain(r)).(buffer := "") == Interpret(r.(buffer := ""), NO_FIELDS, "", r.buffer)
    decreases |r.buffer|
  {
    hide ParseFrame, Interpret, Boundary;
    var b := Boundary(r.buffer);
    if b == |r.buffer| {
      assert "" + r.buffer == r.buffer;
      RestIsInterpreted(r.(buffer := ""), NO_FIELDS, "", r.buffer);
    } else {
      FrameStep(r);
      var next := Hand(r.(buffer := r.buffer[b + 2..]), ParseFrame(r.buffer[..b]));
      if !next.broken {
        DrainIsInterpretation(next);
      }
    }
  }

  lemma FrameEnds(b: string)
    requires Boundary(b) < |b|
    ensures EndsFrame("", b[..Boundary(b)])
  {
    hide Boundary;
    var i := Boundary(b);
    var all := "" + b[..i] + "\n\n";
    assert |all| == i + 2 && forall k | 0 <= k < |all| :: all[k] == b[k];
    assert forall k | 0 <= k < i :: BlankAt(all, k) == BlankAt(b, k);
    BoundaryOf(all, i);
    NoNewlineYet();
  }

  lemma NoNewlineYet()
    ensures '\n' !in ""
  {
  }

  /** However it arrives, the reader does what the standard does with the chunks' own normal forms. */
  lemma ReaderReadsItsChunks(chunks: seq<string>)
    ensures Observed(FeedAll(NEW_READING, chunks)).(buffer := "")
      == Interpret(NEW_READING, NO_FIELDS, "", NormalizeEach(chunks))
  {
    FeedAllIsDrain(NEW_READING, chunks);
    var r := NEW_READING.(buffer := NEW_READING.buffer + NormalizeEach(chunks));
    assert r.buffer == NormalizeEach(chunks);
    DrainIsInterpretation(r);
  }

  /**
   * However it arrives, text whose CRLFs are never cut is read as the standard reads its
   * normalised form: same events, same order, same breaking point.
   */
  lemma ReaderFollowsTheStandard(chunks: seq<string>)
    requires Cuts(chunks) == 0
    ensures Observed(FeedAll(NEW_READING, chunks)).(buffer := "")
      == Interpret(NEW_READING, NO_FIELDS, "", Normalize(Concat(chunks)))
  {
    NormalizingIsExact(chunks);
    ReaderReadsItsChunks(chunks);
  }

  /** A cut CRLF is visible: here it turns an event into an unknown field and loses it. */
  lemma CutCrlfLosesAnEvent()
    ensures var cut, whole := ["data\r", "\n\r\n"], ["data\r\n\r\n"];
      && Concat(cut) == Concat(whole) && Cuts(cut) == 1 && Cuts(whole) == 0
      && FeedAll(NEW_READING, cut).events == []
      && FeedAll(NEW_READING, whole).events == [SseEvent(None, "message", "")]
  {
    hide Feed, FeedAll, Normalize, Concat, Cuts;
    SameTextOneCut();
    NormalHead();
    NormalTail();
    NormalWhole();
    ReadsWhole();
    ReadsCut();
    TwoChunks(NEW_READING, "data\r", "\n\r\n");
    OneChunk(NEW_READING, "data\r\n\r\n");
  }

  lemma SameTextOneCut()
    ensures Concat(["data\r", "\n\r\n"]) == Concat(["data\r\n\r\n"])
    ensures Cuts(["data\r", "\n\r\n"]) == 1 && Cuts(["data\r\n\r\n"]) == 0
  {
    hide Normalize, Feed;
    var cut, whole := ["data\r", "\n\r\n"], ["data\r\n\r\n"];
    assert cut[1..] == ["\n\r\n"] && ["\n\r\n"][1..] == [] && whole[1..] == [];
    assert "\n\r\n" + "" == "\n\r\n" && "data\r" + "\n\r\n" == "data\r\n\r\n" && "data\r\n\r\n" + "" == "data\r\n\r\n";
    assert Concat(["\n\r\n"]) == "\n\r\n" + Concat([]);
    assert Cuts(["\n\r\n"]) == 0;
  }

  lemma OneChunk(r: Reading, chunk: string)
    ensures FeedAll(r, [chunk]) == Feed(r, chunk)
  {
    hide Feed;
    assert [chunk][1..] == [];
  }

  lemma TwoChunks(r: Reading, first: string, second: string)
    ensures FeedAll(r, [first, second]) == Feed(Feed(r, first), second)
  {
    hide Feed;
    assert [first, second][1..] == [second];
    OneChunk(Feed(r, first), second);
  }

  /** Text without carriage returns is normal already. */
  lemma {:induction false} PlainTextStays(s: string)
    requires '\r' !in s
    ensures Normalize(s) == s
  {
    if s != "" {
      PlainTextStays(s[1..]);
      assert s == [s[0]] + s[1..];
    }
  }

  lemma LoneReturnStays(s: string)
    requires '\r' !in s
    ensures Normalize(s + "\r") == s + "\r"
  {
    hide Normalize;
    PlainTextStays(s);
    NormalizePieces(s, "\r");
    NormalizeNothing();
    NormalizeOne('\r', "");
    assert ['\r'] + "" == "\r";
  }

  lemma CrlfIsOneNewline(s: string)
    ensures Normalize("\r\n" + s) == "\n" + Normalize(s)
  {
    assert ("\r\n" + s)[2..] == s;
  }

  lemma NormalHead()
    ensures Normalize("data\r") == "data\r"
  {
    hide Normalize;
    LoneReturnStays("data");
    assert "data" + "\r" == "data\r";
  }

  lemma NormalTail()
    ensures Normalize("\n\r\n") == "\n\n"
  {
    hide Normalize;
    NormalizeNothing();
    PlainTextStays("\n");
    CrlfIsOneNewline("");
    NormalizePieces("\n", "\r\n");
    assert "\r\n" + "" == "\r\n" && "\n" + "\r\n" == "\n\r\n" && "\n" + "" == "\n" && "\n" + "\n" == "\n\n";
  }

  lemma NormalWhole()
    ensures Normalize("data\r\n\r\n") == "data\n\n"
  {
    hide Normalize;
    NormalizeNothing();
    PlainTextStays("data");
    CrlfIsOneNewline("");
    CrlfIsOneNewline("\r\n");
    NormalizePieces("data", "\r\n\r\n");
    assert "\r\n" + "" == "\r\n" && "\r\n" + "\r\n" == "\r\n\r\n" && "data" + "\r\n\r\n" == "data\r\n\r\n";
    assert "\n" + "" == "\n" && "\n" + "\n" == "\n\n" && "data" + "\n\n" == "data\n\n";
  }

  /** One short frame, read to the end of the buffer. */
  lemma DrainOne(r: Reading, frame: string)
    requires !r.broken && '\n' !in frame
    ensures Drain(r.(buffer := frame + "\n\n")) == Hand(r.(buffer := ""), Finish(ReadLine(NO_FIELDS, frame)))
  {
    hide Finish, ReadLine, Boundary;
    var b := frame + "\n\n";
    assert forall k | 0 <= k < |frame| :: b[k] == frame[k] != '\n';
    assert forall k | 0 <= k < |frame| :: !BlankAt(b, k);
    BoundaryOf(b, |frame|);
    DrainFrame(r, frame);
    ReadLinesStep(NO_FIELDS, frame, "");
  }

  lemma DrainFrame(r: Reading, frame: string)
    requires Boundary(frame + "\n\n") == |frame|
    ensures Drain(r.(buffer := frame + "\n\n")) == Hand(r.(buffer := ""), ParseFrame(frame))
  {
    hide Boundary, ParseFrame;
    var b := frame + "\n\n";
    assert b[..|frame|] == frame && b[|frame| + 2..] == "";
    DrainNothing(Hand(r.(buffer := ""), ParseFrame(frame)));
  }

  /** One frame of two lines, read to the end of the buffer. */
  lemma DrainTwoLines(r: Reading, first: string, second: string)
    requires !r.broken && '\n' !in first && '\n' !in second && first != "" && second != ""
    ensures Drain(r.(buffer := first + "\n" + second + "\n\n"))
      == Hand(r.(buffer := ""), Finish(ReadLine(ReadLine(NO_FIELDS, first), second)))
  {
    hide Finish, ReadLine, Boundary;
    var frame := first + ("\n" + second);
    assert first + "\n" + second + "\n\n" == frame + "\n\n";
    TwoLinesBoundary(first, second);
    DrainFrame(r, frame);
    ReadLinesStep(NO_FIELDS, first, second);
    ReadLinesStep(ReadLine(NO_FIELDS, first), second, "");
  }

  lemma TwoLinesBoundary(first: string, second: string)
    requires '\n' !in first && '\n' !in second && first != "" && second != ""
    ensures Boundary(first + "\n" + second + "\n\n") == |first| + 1 + |second|
  {
    hide Boundary, BlankAt;
    var b, i := first + "\n" + second + "\n\n", |first| + 1 + |second|;
    TwoLinesAt(first, second);
    forall k | 0 <= k < i ensures !BlankAt(b, k) {
      NoBlankInside(first, second, k);
    }
    BoundaryOf(b, i);
  }

  lemma TwoLinesAt(first: string, second: string)
    ensures BlankAt(first + "\n" + second + "\n\n", |first| + 1 + |second|)
  {
    var start := first + "\n" + second;
    assert (start + "\n\n")[|start|] == '\n' && (start + "\n\n")[|start| + 1] == '\n';
  }

  lemma NoBlankInside(first: string, second: string, k: nat)
    requires '\n' !in first && '\n' !in second && second != "" && k < |first| + 1 + |second|
    ensures !BlankAt(first + "\n" + second + "\n\n", k)
  {
    var head, start := first + "\n", first + "\n" + second;
    var b := start + "\n\n";
    assert forall j | 0 <= j < |start| :: b[j] == start[j];
    if k < |first| {
      assert b[k] == start[k] == head[k] == first[k];
      assert first[k] in first;
    } else {
      var j := if k == |first| then k + 1 else k;
      assert b[j] == start[j] == second[j - |head|];
      assert second[j - |head|] in second;
    }
  }

  lemma DrainNothing(r: Reading)
    requires r.buffer == ""
    ensures Drain(r) == r
  {
  }

  lemma DataLine()
    ensures ReadLine(NO_FIELDS, "data") == NO_FIELDS.(data := [""])
    ensures ReadLine(NO_FIELDS, "data\r") == NO_FIELDS
  {
    NoColonNoNewline("data");
    NoColonNoNewline("data\r");
    assert "data"[..4] == "data" && "data\r"[..5] == "data\r" && [] + [""] == [""];
  }

  lemma ReadsWhole()
    requires Normalize("data\r\n\r\n") == "data\n\n"
    ensures Feed(NEW_READING, "data\r\n\r\n").events == [SseEvent(None, "message", "")]
  {
    hide Drain, ReadLine;
    DrainOne(NEW_READING, "data");
    DataLine();
    var e := SseEvent(None, "message", "");
    assert "" + "data\n\n" == "data" + "\n\n" && [] + [e] == [e];
  }

  lemma ReadsCut()
    requires Normalize("data\r") == "data\r" && Normalize("\n\r\n") == "\n\n"
    ensures Feed(NEW_READING, "data\r") == NEW_READING.(buffer := "data\r")
    ensures Feed(Feed(NEW_READING, "data\r"), "\n\r\n").events == []
  {
    hide ReadLine;
    assert "" + "data\r" == "data\r";
    NoBoundaryIn("data\r");
    DrainOne(NEW_READING, "data\r");
    DataLine();
  }

  lemma {:induction false} NoColonNoNewline(s: string)
    requires ':' !in s && '\n' !in s
    ensures IndexOf(s, ':') == |s| && IndexOf(s, '\n') == |s|
  {
    if s != "" {
      NoColonNoNewline(s[1..]);
    }
  }
}
