/**
 * Event-stream text as a server writes it: lines of a field and its value, ended by LF or CRLF,
 * frames ended by a blank line. The reader hands over exactly what the frames were written to say.
 */
module EventStreamText {
  import opened Basics
  import opened Decimal
  import opened ServerSentEvents

  /** A name alone, or a name, a colon, perhaps one space, and a value; a comment has no name. */
  datatype Content = Bare(name: string) | Field(name: string, spaced: bool, value: string)

  datatype Line = Line(content: Content, crlf: bool)

  /** Lines with content, ended by a blank one. */
  datatype Frame = Frame(lines: seq<Line>, crlf: bool)

  function TextOf(c: Content): string {
    match c
    case Bare(name) => name
    case Field(name, spaced, value) => name + ":" + (if spaced then " " else "") + value
  }

  /** The value: nothing for a bare name, and one space after the colon does not belong to it. */
  function ValueOf(c: Content): string {
    match c
    case Bare(_) => ""
    case Field(_, _, value) => value
  }

  function LineEnd(crlf: bool): string {
    if crlf then "\r\n" else "\n"
  }

  /** No colon in the name, no newline anywhere, and no way to read the line as another one. */
  predicate Written(line: Line) {
    && ':' !in line.content.name && '\n' !in TextOf(line.content)
    && (line.content.Field? && !line.content.spaced && line.content.value != "" ==> line.content.value[0] != ' ')
    && (line.content.Bare? ==> line.content.name != "")
    && (!line.crlf ==> TextOf(line.content)[|TextOf(line.content)| - 1] != '\r')
  }

  function LinesText(lines: seq<Line>): string {
    if lines == [] then "" else TextOf(lines[0].content) + LineEnd(lines[0].crlf) + LinesText(lines[1..])
  }

  function FramesText(frames: seq<Frame>): string {
    if frames == [] then ""
    else LinesText(frames[0].lines) + LineEnd(frames[0].crlf) + FramesText(frames[1..])
  }

  predicate AllWritten(lines: seq<Line>) {
    forall line <- lines :: Written(line)
  }

  predicate WellFormed(frames: seq<Frame>) {
    forall f <- frames :: AllWritten(f.lines)
  }

  // ---- What the frames say ----

  /** The values given to a field, in order. */
  function ValuesOf(lines: seq<Line>, name: string): seq<string> {
    if lines == [] then []
    else
      var n := |lines| - 1;
      ValuesOf(lines[..n], name) +
      if lines[n].content.name == name then [ValueOf(lines[n].content)] else []
  }

  predicate IdText(s: string) {
    s != "" && AllDigitChars(s) && Value(s) <= 9007199254740991
  }

  /** An id that is not a safe decimal number breaks the connection. */
  predicate Breaks(lines: seq<Line>) {
    exists v <- ValuesOf(lines, "id") :: !IdText(v)
  }

  function Last(values: seq<string>): string {
    if values == [] then "" else values[|values| - 1]
  }

  /** The values, each followed by a newline. */
  function Terminated(values: seq<string>): string {
    if values == [] then "" else Terminated(values[..|values| - 1]) + values[|values| - 1] + "\n"
  }

  /** The last id, the last event name or "message", and the data lines with newlines between them. */
  ghost predicate Says(lines: seq<Line>, e: SseEvent) {
    && ValuesOf(lines, "data") != [] && !Breaks(lines)
    && e.id == (if ValuesOf(lines, "id") == [] || !IdText(Last(ValuesOf(lines, "id"))) then None
                else Some(Value(Last(ValuesOf(lines, "id")))))
    && e.event == (if Last(ValuesOf(lines, "event")) == "" then "message" else Last(ValuesOf(lines, "event")))
    && e.data + "\n" == Terminated(ValuesOf(lines, "data"))
  }

  /** The events of the frames with data, up to the first frame that breaks the connection. */
  ghost predicate Hands(frames: seq<Frame>, events: seq<SseEvent>, broken: bool)
    decreases |frames|
  {
    if frames == [] then events == [] && !broken
    else if Breaks(frames[0].lines) then events == [] && broken
    else if ValuesOf(frames[0].lines, "data") == [] then Hands(frames[1..], events, broken)
    else events != [] && Says(frames[0].lines, events[0]) && Hands(frames[1..], events[1..], broken)
  }

  // ---- One line ----

  lemma {:induction false} FirstColon(name: string, rest: string)
    requires ':' !in name
    ensures IndexOf(name + ":" + rest, ':') == |name|
  {
    var s := name + ":" + rest;
    if name == "" {
      assert s[0] == ':';
    } else {
      assert s[0] == name[0] && s[1..] == name[1..] + ":" + rest;
      FirstColon(name[1..], rest);
    }
  }

  lemma {:induction false} NoColon(s: string)
    requires ':' !in s
    ensures IndexOf(s, ':') == |s|
  {
    if s != "" {
      NoColon(s[1..]);
    }
  }

  lemma FieldMeans(name: string, raw: string)
    requires ':' !in name
    ensures var s := name + ":" + raw;
      && IndexOf(s, ':') == |name| && s[..|name|] == name && (s[0] == ':' <==> name == "")
      && FieldValue(s) == if raw != "" && raw[0] == ' ' then raw[1..] else raw
  {
    hide IndexOf;
    var s := name + ":" + raw;
    FirstColon(name, raw);
    assert s[|name| + 1..] == raw;
    assert name != "" ==> s[0] == name[0] && name[0] in name;
  }

  lemma BareMeans(name: string)
    requires ':' !in name && name != ""
    ensures IndexOf(name, ':') == |name| && name[..|name|] == name && name[0] != ':' && FieldValue(name) == ""
  {
    NoColon(name);
    assert name[0] in name;
  }

  /** A line is read as its name and its value. */
  lemma LineMeans(line: Line)
    requires Written(line)
    ensures var s := TextOf(line.content);
      && s != "" && (s[0] == ':' <==> line.content.name == "")
      && s[..IndexOf(s, ':')] == line.content.name && FieldValue(s) == ValueOf(line.content)
  {
    hide IndexOf, FieldValue;
    match line.content {
      case Bare(name) => BareMeans(name);
      case Field(name, spaced, value) =>
        var raw := (if spaced then " " else "") + value;
        assert spaced ==> raw[0] == ' ' && raw[1..] == value;
        assert !spaced ==> raw == value;
        assert TextOf(line.content) == name + ":" + raw;
        FieldMeans(name, raw);
    }
  }

  // ---- The fields of a frame ----

  /** The fields read so far are those of these lines. */
  ghost predicate Gathers(f: Fields, lines: seq<Line>) {
    && f.bad == Breaks(lines)
    && f.data == ValuesOf(lines, "data")
    && f.event == (if Last(ValuesOf(lines, "event")) == "" then "message" else Last(ValuesOf(lines, "event")))
    && (!f.bad ==> f.id == if ValuesOf(lines, "id") == [] || !IdText(Last(ValuesOf(lines, "id"))) then None
                           else Some(Value(Last(ValuesOf(lines, "id")))))
  }

  lemma ValuesGrow(lines: seq<Line>, line: Line, name: string)
    ensures ValuesOf(lines + [line], name) ==
      ValuesOf(lines, name) + if line.content.name == name then [ValueOf(line.content)] else []
  {
    assert (lines + [line])[..|lines|] == lines;
  }

  lemma BreaksGrows(lines: seq<Line>, line: Line)
    ensures Breaks(lines + [line]) <==>
      Breaks(lines) || (line.content.name == "id" && !IdText(ValueOf(line.content)))
  {
    hide IdText, ValuesOf;
    ValuesGrow(lines, line, "id");
    var before, after, v := ValuesOf(lines, "id"), ValuesOf(lines + [line], "id"), ValueOf(line.content);
    assert forall x :: x in before + [v] <==> x in before || x == v;
    assert before + [] == before;
    assert line.content.name == "id" ==> v in after;
  }

  lemma ReadLineGathers(f: Fields, lines: seq<Line>, line: Line)
    requires Gathers(f, lines) && Written(line)
    ensures Gathers(ReadLine(f, TextOf(line.content)), lines + [line])
  {
    hide ValuesOf, IndexOf, TextOf, FieldValue, Value, Breaks;
    LineMeans(line);
    BreaksGrows(lines, line);
    ValuesGrow(lines, line, "id");
    ValuesGrow(lines, line, "event");
    ValuesGrow(lines, line, "data");
    hide Written;
    assert ValuesOf(lines, "id") + [] == ValuesOf(lines, "id");
    assert ValuesOf(lines, "event") + [] == ValuesOf(lines, "event");
    assert f.data + [] == f.data;
  }

  lemma NothingGathered()
    ensures Gathers(NO_FIELDS, [])
  {
  }

  lemma {:induction false} JoinTerminated(values: seq<string>)
    requires values != []
    ensures Join(values) + "\n" == Terminated(values)
  {
    var n := |values| - 1;
    if n == 0 {
      assert Terminated(values) == Terminated([]) + values[0] + "\n";
    } else {
      JoinTerminated(values[..n]);
      JoinGrows(values[..n], values[n]);
      assert values == values[..n] + [values[n]];
    }
  }

  lemma {:induction false} JoinGrows(values: seq<string>, last: string)
    requires values != []
    ensures Join(values + [last]) == Join(values) + "\n" + last
  {
    var all := values + [last];
    assert all[0] == values[0] && all[1..] == values[1..] + [last];
    if |values| == 1 {
      assert all[1..] == [last];
    } else {
      JoinGrows(values[1..], last);
    }
  }

  lemma FinishSays(f: Fields, lines: seq<Line>)
    requires Gathers(f, lines)
    ensures match Finish(f)
      case Broken => Breaks(lines)
      case Silent => !Breaks(lines) && ValuesOf(lines, "data") == []
      case Event(e) => Says(lines, e)
  {
    hide ValuesOf, Breaks, Terminated;
    if f.data != [] {
      JoinTerminated(f.data);
    }
  }

  // ---- Whole texts ----

  /** Interpreting one line more. */
  lemma {:induction false} InterpretLine(r: Reading, f: Fields, line: string, s: string, rest: string)
    requires '\n' !in s && line + s != ""
    ensures Interpret(r, f, line, s + "\n" + rest) == Interpret(r, ReadLine(f, line + s), "", rest)
    decreases |s|
  {
    hide ReadLine, Hand, Finish;
    var text := s + "\n" + rest;
    if s == "" {
      assert text[0] == '\n' && text[1..] == rest && line + s == line;
    } else {
      assert text[0] == s[0] && text[1..] == s[1..] + "\n" + rest;
      assert line + s == (line + [s[0]]) + s[1..];
      InterpretLine(r, f, line + [s[0]], s[1..], rest);
    }
  }

  lemma {:induction false} InterpretTail(r: Reading, f: Fields, line: string, tail: string)
    requires '\n' !in tail
    ensures Interpret(r, f, line, tail) == r
    decreases |tail|
  {
    hide ReadLine, Hand, Finish;
    if tail != "" {
      InterpretTail(r, f, line + [tail[0]], tail[1..]);
    }
  }

  /** The same text with bare newlines. */
  function PlainLines(lines: seq<Line>): string {
    if lines == [] then "" else TextOf(lines[0].content) + "\n" + PlainLines(lines[1..])
  }

  function PlainFrames(frames: seq<Frame>): string {
    if frames == [] then "" else PlainLines(frames[0].lines) + "\n" + PlainFrames(frames[1..])
  }

  lemma {:induction false} InterpretLines(r: Reading, f: Fields, before: seq<Line>, lines: seq<Line>, rest: string)
      returns (g: Fields)
    requires Gathers(f, before) && AllWritten(lines)
    ensures Gathers(g, before + lines)
    ensures Interpret(r, f, "", PlainLines(lines) + rest) == Interpret(r, g, "", rest)
    decreases |lines|
  {
    hide Interpret, Gathers, ReadLine, Written, PlainLines, TextOf;
    PlainStep(lines);
    if lines == [] {
      g := f;
      assert before + lines == before && PlainLines(lines) + rest == rest;
    } else {
      var s := TextOf(lines[0].content);
      assert Written(lines[0]);
      LineMeans(lines[0]);
      NoNewline(lines[0]);
      Regroup(s, PlainLines(lines[1..]), rest);
      assert "" + s == s;
      InterpretLine(r, f, "", s, PlainLines(lines[1..]) + rest);
      ReadLineGathers(f, before, lines[0]);
      g := InterpretLines(r, ReadLine(f, s), before + [lines[0]], lines[1..], rest);
      FirstMoves(before, lines);
    }
  }

  lemma FirstMoves(before: seq<Line>, lines: seq<Line>)
    requires lines != []
    ensures before + [lines[0]] + lines[1..] == before + lines
  {
  }

  lemma PlainStep(lines: seq<Line>)
    ensures PlainLines(lines) ==
      if lines == [] then "" else TextOf(lines[0].content) + "\n" + PlainLines(lines[1..])
  {
  }

  lemma Regroup(s: string, more: string, rest: string)
    ensures s + "\n" + more + rest == s + "\n" + (more + rest)
  {
  }

  lemma NoNewline(line: Line)
    requires Written(line)
    ensures '\n' !in TextOf(line.content)
  {
  }

  lemma BlankDispatches(r: Reading, f: Fields, rest: string)
    ensures Interpret(r, f, "", "\n" + rest) ==
      var next := Hand(r, Finish(f)); if next.broken then next else Interpret(next, NO_FIELDS, "", rest)
  {
    hide Hand, Finish;
    assert ("\n" + rest)[1..] == rest;
  }

  lemma RegroupFrames(lines: string, frames: string, unfinished: string, tail: string)
    ensures lines + "\n" + frames + unfinished + tail == lines + ("\n" + (frames + unfinished + tail))
  {
  }

  /** Whatever was handed over before, these frames hand over what they say, in order. */
  lemma {:induction false} InterpretFrames(r: Reading, frames: seq<Frame>, unfinished: seq<Line>, tail: string)
      returns (more: seq<SseEvent>, broken: bool)
    requires !r.broken && WellFormed(frames) && AllWritten(unfinished) && '\n' !in tail
    ensures Hands(frames, more, broken)
    ensures Interpret(r, NO_FIELDS, "", PlainFrames(frames) + PlainLines(unfinished) + tail)
      == r.(events := r.events + more, broken := broken)
    decreases |frames|
  {
    hide Interpret, Gathers, Says, Breaks, ValuesOf, Finish, PlainLines, AllWritten;
    NothingGathered();
    if frames == [] {
      more, broken := [], false;
      var g := InterpretLines(r, NO_FIELDS, [], unfinished, tail);
      InterpretTail(r, g, "", tail);
      assert PlainFrames(frames) + PlainLines(unfinished) + tail == PlainLines(unfinished) + tail;
      assert r.events + [] == r.events;
    } else {
      var lines, rest := frames[0].lines, PlainFrames(frames[1..]) + PlainLines(unfinished) + tail;
      RegroupFrames(PlainLines(lines), PlainFrames(frames[1..]), PlainLines(unfinished), tail);
      var g := InterpretLines(r, NO_FIELDS, [], lines, "\n" + rest);
      assert [] + lines == lines;
      BlankDispatches(r, g, rest);
      FinishSays(g, lines);
      var next := Hand(r, Finish(g));
      if next.broken {
        more, broken := [], true;
        assert r.events + [] == r.events;
      } else {
        more, broken := InterpretFrames(next, frames[1..], unfinished, tail);
        if Finish(g).Event? {
          assert r.events + [Finish(g).value] + more == r.events + ([Finish(g).value] + more);
          SaysHasData(lines, Finish(g).value);
          more := [Finish(g).value] + more;
        }
      }
    }
  }

  lemma SaysHasData(lines: seq<Line>, e: SseEvent)
    requires Says(lines, e)
    ensures ValuesOf(lines, "data") != [] && !Breaks(lines)
  {
  }

  // ---- Arriving in chunks ----

  lemma {:induction false} PlainTextNormal(s: string)
    requires '\n' !in s
    ensures Normalize(s) == s
  {
    if s != "" {
      PlainTextNormal(s[1..]);
      assert s == [s[0]] + s[1..];
    }
  }

  /** The end of a line becomes one newline, and what follows is normalised by itself. */
  lemma EndNormal(s: string, crlf: bool, rest: string)
    requires '\n' !in s && (!crlf && s != "" ==> s[|s| - 1] != '\r')
    ensures Normalize(s + LineEnd(crlf) + rest) == s + "\n" + Normalize(rest)
  {
    hide Normalize;
    PlainTextNormal(s);
    if crlf {
      CrlfIsOneNewline(rest);
      assert s + LineEnd(crlf) + rest == s + ("\r\n" + rest);
      NormalizePieces(s, "\r\n" + rest);
      Regroup(s, "", Normalize(rest));
    } else {
      NormalizeOne('\n', rest);
      assert "\n" + rest == ['\n'] + rest;
      assert s + LineEnd(crlf) + rest == s + ("\n" + rest);
      NormalizePieces(s, "\n" + rest);
    }
  }

  lemma {:induction false} LinesNormal(lines: seq<Line>, rest: string)
    requires AllWritten(lines)
    ensures Normalize(LinesText(lines) + rest) == PlainLines(lines) + Normalize(rest)
  {
    hide Normalize, Written, TextOf, LineEnd;
    if lines == [] {
      assert LinesText(lines) + rest == rest && PlainLines(lines) + Normalize(rest) == Normalize(rest);
    } else {
      var s, crlf, more := TextOf(lines[0].content), lines[0].crlf, LinesText(lines[1..]) + rest;
      assert Written(lines[0]);
      LineMeans(lines[0]);
      WrittenEnds(lines[0]);
      assert LinesText(lines) + rest == s + LineEnd(crlf) + more;
      EndNormal(s, crlf, more);
      LinesNormal(lines[1..], rest);
      Regroup(s, PlainLines(lines[1..]), Normalize(rest));
    }
  }

  lemma WrittenEnds(line: Line)
    requires Written(line)
    ensures var s := TextOf(line.content); s != "" && '\n' !in s && (!line.crlf ==> s[|s| - 1] != '\r')
  {
    LineMeans(line);
  }

  lemma {:induction false} FramesNormal(frames: seq<Frame>, rest: string)
    requires WellFormed(frames)
    ensures Normalize(FramesText(frames) + rest) == PlainFrames(frames) + Normalize(rest)
  {
    hide Normalize, AllWritten, LinesText, PlainLines, LineEnd;
    if frames == [] {
      assert FramesText(frames) + rest == rest && PlainFrames(frames) + Normalize(rest) == Normalize(rest);
    } else {
      var more := FramesText(frames[1..]) + rest;
      var end := LineEnd(frames[0].crlf);
      assert FramesText(frames) + rest == LinesText(frames[0].lines) + (end + more);
      assert AllWritten(frames[0].lines);
      LinesNormal(frames[0].lines, end + more);
      EndNormal("", frames[0].crlf, more);
      assert "" + end + more == end + more;
      FramesNormal(frames[1..], rest);
      assert PlainLines(frames[0].lines) + ("" + "\n" + (PlainFrames(frames[1..]) + Normalize(rest)))
        == PlainLines(frames[0].lines) + "\n" + PlainFrames(frames[1..]) + Normalize(rest);
    }
  }

  /**
   * However its chunks are cut, short of inside a CRLF, the reader hands over exactly what the
   * frames of the text say, in order, up to the first frame that breaks the connection; an
   * unfinished frame says nothing yet.
   */
  lemma ReaderHandsOverTheFrames(chunks: seq<string>, frames: seq<Frame>, unfinished: seq<Line>, tail: string)
    requires Cuts(chunks) == 0 && Concat(chunks) == FramesText(frames) + LinesText(unfinished) + tail
    requires WellFormed(frames) && AllWritten(unfinished) && '\n' !in tail
    ensures var r := FeedAll(NEW_READING, chunks); Hands(frames, r.events, r.broken)
  {
    hide Normalize, Interpret, Hands, FeedAll, WellFormed, AllWritten, FramesText, LinesText, PlainFrames, PlainLines;
    hide Concat, Cuts, NormalizeEach, Observed;
    ReaderFollowsTheStandard(chunks);
    Assoc(FramesText(frames), LinesText(unfinished), tail);
    FramesNormal(frames, LinesText(unfinished) + tail);
    LinesNormal(unfinished, tail);
    PlainTextNormal(tail);
    var more, broken := InterpretFrames(NEW_READING, frames, unfinished, tail);
    assert [] + more == more;
    Assoc(PlainFrames(frames), PlainLines(unfinished), tail);
    KeepsEvents(FeedAll(NEW_READING, chunks));
  }

  lemma Assoc(a: string, b: string, c: string)
    ensures a + b + c == a + (b + c)
  {
  }

  lemma KeepsEvents(r: Reading)
    ensures Observed(r).events == r.events && Observed(r).broken == r.broken
  {
  }

  lemma BlankInFront(frames: seq<Frame>, crlf: bool)
    requires WellFormed(frames)
    ensures var more := [Frame([], crlf)] + frames;
      WellFormed(more) && FramesText(more) == LineEnd(crlf) + FramesText(frames)
  {
    hide LineEnd, TextOf, Written;
    var more := [Frame([], crlf)] + frames;
    assert more[1..] == frames;
    assert forall f <- more :: f == Frame([], crlf) || f in frames;
  }

  lemma LineInFront(lines: seq<Line>, line: Line)
    requires AllWritten(lines) && Written(line)
    ensures var more := [line] + lines;
      AllWritten(more) && LinesText(more) == TextOf(line.content) + LineEnd(line.crlf) + LinesText(lines)
  {
    hide LineEnd, TextOf, Written;
    var more := [line] + lines;
    assert more[1..] == lines;
    assert forall x <- more :: x == line || x in lines;
  }

  lemma LineInFirstFrame(frames: seq<Frame>, line: Line)
    requires frames != [] && WellFormed(frames) && Written(line)
    ensures var more := [Frame([line] + frames[0].lines, frames[0].crlf)] + frames[1..];
      WellFormed(more) && FramesText(more) == TextOf(line.content) + LineEnd(line.crlf) + FramesText(frames)
  {
    hide LineEnd, TextOf, Written, AllWritten, LinesText;
    var first := Frame([line] + frames[0].lines, frames[0].crlf);
    var more := [first] + frames[1..];
    assert more[1..] == frames[1..];
    assert forall f <- more :: f == first || f in frames;
    LineInFront(frames[0].lines, line);
    var s, e := TextOf(line.content) + LineEnd(line.crlf), LineEnd(frames[0].crlf);
    Assoc(s, LinesText(frames[0].lines), e);
    Assoc(s, LinesText(frames[0].lines) + e, FramesText(frames[1..]));
  }

  /** Every text consists of such frames, an unfinished one and an unfinished line. */
  lemma {:induction false} EveryTextHasFrames(text: string)
      returns (frames: seq<Frame>, unfinished: seq<Line>, tail: string)
    ensures text == FramesText(frames) + LinesText(unfinished) + tail
    ensures WellFormed(frames) && AllWritten(unfinished) && '\n' !in tail
    decreases |text|
  {
    hide TextOf, Written, LineEnd, FramesText, LinesText;
    if '\n' !in text {
      frames, unfinished, tail := [], [], text;
      NoText();
      assert "" + "" + text == text;
    } else {
      var raw, crlf, rest := FirstLine(text);
      frames, unfinished, tail := EveryTextHasFrames(rest);
      var before := frames;
      Assoc(FramesText(frames), LinesText(unfinished), tail);
      if raw == "" {
        BlankInFront(frames, crlf);
        frames := [Frame([], crlf)] + frames;
        assert "" + LineEnd(crlf) == LineEnd(crlf);
        Assoc(LineEnd(crlf), FramesText(before), LinesText(unfinished) + tail);
        Assoc(FramesText(frames), LinesText(unfinished), tail);
      } else {
        var line := LineOf(raw, crlf);
        var s := raw + LineEnd(crlf);
        if frames == [] {
          LineInFront(unfinished, line);
          NoText();
          Assoc(s, LinesText(unfinished), tail);
          assert "" + LinesText(unfinished) == LinesText(unfinished);
          unfinished := [line] + unfinished;
          assert "" + LinesText(unfinished) == LinesText(unfinished);
        } else {
          LineInFirstFrame(frames, line);
          frames := [Frame([line] + frames[0].lines, frames[0].crlf)] + frames[1..];
          Assoc(s, FramesText(before), LinesText(unfinished) + tail);
          Assoc(FramesText(frames), LinesText(unfinished), tail);
        }
      }
    }
  }

  lemma NoText()
    ensures FramesText([]) == "" && LinesText([]) == ""
  {
  }

  lemma {:induction false} CutAt(s: string, c: char) returns (a: string, b: string)
    requires c in s
    ensures s == a + [c] + b && c !in a
  {
    if s[0] == c {
      a, b := "", s[1..];
    } else {
      assert s == [s[0]] + s[1..];
      a, b := CutAt(s[1..], c);
      a := [s[0]] + a;
    }
  }

  /** The text up to the first newline, how it ends, and what follows. */
  lemma FirstLine(text: string) returns (raw: string, crlf: bool, rest: string)
    requires '\n' in text
    ensures text == raw + LineEnd(crlf) + rest && '\n' !in raw && |rest| < |text|
    ensures !crlf && raw != "" ==> raw[|raw| - 1] != '\r'
  {
    var a;
    a, rest := CutAt(text, '\n');
    crlf := a != "" && a[|a| - 1] == '\r';
    raw := if crlf then a[..|a| - 1] else a;
    assert crlf ==> a == raw + "\r" && raw + "\r\n" == a + "\n";
  }

  lemma LineOf(raw: string, crlf: bool) returns (line: Line)
    requires raw != "" && '\n' !in raw && (!crlf ==> raw[|raw| - 1] != '\r')
    ensures Written(line) && TextOf(line.content) == raw && line.crlf == crlf
  {
    if ':' !in raw {
      line := Line(Bare(raw), crlf);
    } else {
      var name, value := CutAt(raw, ':');
      var spaced := value != "" && value[0] == ' ';
      line := Line(Field(name, spaced, if spaced then value[1..] else value), crlf);
      assert spaced ==> value == " " + value[1..];
      assert !spaced ==> "" + value == value;
      assert [':'] == ":";
      Assoc(name + ":", if spaced then " " else "", line.content.value);
    }
  }
}
