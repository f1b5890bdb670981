/**
 * What the grammar's tokens are, in characters: punctuation, words, digits, white space, and the
 * inside of a string literal as a writer puts it together from plain units and escapes.
 */
module JsonTokens {
  import opened Basics
  import opened JsonGrammar

  predicate Is(u: Unit, c: char) {
    u == c as int
  }

  ghost predicate Spells(t: Text, s: string) {
    |t| == |s| && forall i | 0 <= i < |t| :: Is(t[i], s[i])
  }

  lemma TokensAreCharacters()
    ensures Is(QUOTE, '\"') && Is(BACKSLASH, '\\') && Is(COMMA, ',') && Is(COLON, ':')
    ensures Is(MINUS, '-') && Is(PLUS, '+') && Is(DOT, '.') && Is(ZERO, '0') && Is(LETTER_U, 'u')
    ensures Is(OPEN_ARRAY, '[') && Is(CLOSE_ARRAY, ']') && Is(OPEN_OBJECT, '{') && Is(CLOSE_OBJECT, '}')
    ensures Spells(WORD_TRUE, "true") && Spells(WORD_FALSE, "false") && Spells(WORD_NULL, "null")
    ensures forall u: Unit :: IsWs(u) <==> Is(u, ' ') || Is(u, '\t') || Is(u, '\n') || Is(u, '\r')
    ensures forall u: Unit :: IsDigit(u) <==> exists c <- "0123456789" :: Is(u, c)
    ensures forall u: Unit :: IsExponent(u) <==> Is(u, 'e') || Is(u, 'E')
  {
    forall u: Unit ensures IsDigit(u) <==> exists c <- "0123456789" :: Is(u, c) {
      DigitsAreListed(u);
    }
  }

  lemma DigitsAreListed(u: Unit)
    ensures IsDigit(u) <==> exists c <- "0123456789" :: Is(u, c)
  {
    var digits := "0123456789";
    assert forall i | 0 <= i < 10 :: Is(0x30 + i, digits[i]);
    if IsDigit(u) {
      assert Is(u, digits[u - 0x30]) && digits[u - 0x30] in digits;
    }
  }

  // ---- The inside of a string literal ----

  /** A unit as it is, one of the short escapes, or four hexadecimal digits. */
  datatype Piece = Plain(u: Unit) | Short(letter: char) | Hex(a: char, b: char, c: char, d: char)

  function Digit(c: char): int {
    if '0' <= c <= '9' then c as int - '0' as int
    else if 'a' <= c <= 'f' then c as int - 'a' as int + 10
    else if 'A' <= c <= 'F' then c as int - 'A' as int + 10
    else -1
  }

  /** What the letter after a backslash stands for. */
  function Meant(letter: char): int {
    match letter
    case '\"' => 34
    case '\\' => 92
    case '/' => 47
    case 'b' => 8
    case 'f' => 12
    case 'n' => 10
    case 'r' => 13
    case 't' => 9
    case _ => -1
  }

  /** Control characters, quotes and backslashes must be escaped; nothing else may be left out. */
  predicate WellWritten(p: Piece) {
    match p
    case Plain(u) => u >= 32 && u != 34 && u != 92
    case Short(letter) => Meant(letter) >= 0
    case Hex(a, b, c, d) => Digit(a) >= 0 && Digit(b) >= 0 && Digit(c) >= 0 && Digit(d) >= 0
  }

  function UnitOf(p: Piece): Unit
    requires WellWritten(p)
  {
    match p
    case Plain(u) => u
    case Short(letter) => Meant(letter)
    case Hex(a, b, c, d) => ((Digit(a) * 16 + Digit(b)) * 16 + Digit(c)) * 16 + Digit(d)
  }

  function Ascii(c: char): Unit {
    if c as int < 128 then c as int else 0
  }

  function PieceText(p: Piece): Text {
    match p
    case Plain(u) => [u]
    case Short(letter) => [92, Ascii(letter)]
    case Hex(a, b, c, d) => [92, 117, Ascii(a), Ascii(b), Ascii(c), Ascii(d)]
  }

  function TextOf(pieces: seq<Piece>): Text {
    if pieces == [] then [] else PieceText(pieces[0]) + TextOf(pieces[1..])
  }

  predicate AllWellWritten(pieces: seq<Piece>) {
    forall p <- pieces :: WellWritten(p)
  }

  function UnitsOf(pieces: seq<Piece>): Text
    requires AllWellWritten(pieces)
  {
    if pieces == [] then [] else [UnitOf(pieces[0])] + UnitsOf(pieces[1..])
  }

  ghost predicate Writes(pieces: seq<Piece>, text: Text, units: Text) {
    AllWellWritten(pieces) && TextOf(pieces) == text && UnitsOf(pieces) == units
  }

  lemma HexDigits(u: Unit, c: char)
    requires Is(u, c)
    ensures HexValue(u) == if Digit(c) >= 0 then Some(Digit(c) as Unit) else None
  {
  }

  lemma Escapes(u: Unit, c: char)
    requires Is(u, c)
    ensures Escape(u) == if Meant(c) >= 0 then Some(Meant(c) as Unit) else None
  {
  }

  lemma HexIsRead(t: Text, i: int, p: Piece)
    requires WellWritten(p) && p.Hex? && 0 <= i && i + 4 <= |t|
    requires t[i] == Ascii(p.a) && t[i + 1] == Ascii(p.b) && t[i + 2] == Ascii(p.c) && t[i + 3] == Ascii(p.d)
    ensures HexUnit(t, i) == Some(UnitOf(p))
  {
    HexDigits(t[i], p.a);
    HexDigits(t[i + 1], p.b);
    HexDigits(t[i + 2], p.c);
    HexDigits(t[i + 3], p.d);
    hide HexValue;
  }

  /** Decoding takes one piece and goes on after it. */
  lemma DecodePiece(t: Text, i: int, j: int, p: Piece)
    requires WellWritten(p) && 0 <= i && i + |PieceText(p)| <= j <= |t| && t[i..i + |PieceText(p)|] == PieceText(p)
    ensures Decode(t, i, j) == Cons(UnitOf(p), Decode(t, i + |PieceText(p)|, j))
  {
    var s := PieceText(p);
    assert forall k | 0 <= k < |s| :: t[i + k] == t[i..i + |s|][k] == s[k];
    match p {
      case Plain(_) =>
      case Short(letter) =>
        assert t[i + 1] == s[1];
        Escapes(s[1], letter);
      case Hex(a, b, c, d) =>
        assert t[i + 1] == s[1] && t[i + 2] == s[2] && t[i + 3] == s[3] && t[i + 4] == s[4] && t[i + 5] == s[5];
        HexIsRead(t, i + 2, p);
        hide HexUnit, Digit, Ascii;
    }
  }

  lemma CutOff(t: Text, i: int, j: int, s: Text, rest: Text)
    requires 0 <= i <= j <= |t| && t[i..j] == s + rest
    ensures i + |s| <= j && t[i..i + |s|] == s && t[i + |s|..j] == rest
  {
    assert |t[i..j]| == |s| + |rest|;
    assert forall k | 0 <= k < |s| :: t[i + k] == t[i..j][k] == s[k];
    assert forall k | 0 <= k < |rest| :: t[i + |s| + k] == t[i..j][|s| + k] == rest[k];
  }

  lemma {:induction false} WrittenIsDecoded(t: Text, i: int, j: int, pieces: seq<Piece>)
    requires 0 <= i <= j <= |t| && AllWellWritten(pieces) && t[i..j] == TextOf(pieces)
    ensures Decode(t, i, j) == Some(UnitsOf(pieces))
    decreases |pieces|
  {
    if pieces != [] {
      var s := PieceText(pieces[0]);
      CutOff(t, i, j, s, TextOf(pieces[1..]));
      DecodePiece(t, i, j, pieces[0]);
      WrittenIsDecoded(t, i + |s|, j, pieces[1..]);
    }
  }

  lemma HexIsWritten(t: Text, i: int) returns (p: Piece)
    requires 0 <= i && i + 4 <= |t| && HexUnit(t, i).Some?
    ensures WellWritten(p) && p.Hex?
    ensures t[i] == Ascii(p.a) && t[i + 1] == Ascii(p.b) && t[i + 2] == Ascii(p.c) && t[i + 3] == Ascii(p.d)
  {
    assert HexValue(t[i]).Some? && HexValue(t[i + 1]).Some? && HexValue(t[i + 2]).Some? && HexValue(t[i + 3]).Some?;
    p := Hex(t[i] as char, t[i + 1] as char, t[i + 2] as char, t[i + 3] as char);
    HexDigits(t[i], p.a);
    HexDigits(t[i + 1], p.b);
    HexDigits(t[i + 2], p.c);
    HexDigits(t[i + 3], p.d);
  }

  /** The first piece of what decodes. */
  lemma FirstPiece(t: Text, i: int, j: int) returns (p: Piece)
    requires 0 <= i < j <= |t| && Decode(t, i, j).Some?
    ensures WellWritten(p) && i + |PieceText(p)| <= j && t[i..i + |PieceText(p)|] == PieceText(p)
  {
    hide HexUnit, Digit;
    if t[i] != BACKSLASH {
      p := Plain(t[i]);
      assert t[i..i + 1] == [t[i]];
    } else if t[i + 1] != LETTER_U {
      p := Short(t[i + 1] as char);
      Escapes(t[i + 1], t[i + 1] as char);
      assert t[i..i + 2] == [t[i], t[i + 1]];
    } else {
      p := HexIsWritten(t, i + 2);
      assert t[i..i + 6] == [t[i], t[i + 1], t[i + 2], t[i + 3], t[i + 4], t[i + 5]];
      hide WellWritten, Ascii;
    }
  }

  lemma {:induction false} DecodedIsWritten(t: Text, i: int, j: int) returns (pieces: seq<Piece>)
    requires 0 <= i <= j <= |t| && Decode(t, i, j).Some?
    ensures Writes(pieces, t[i..j], Decode(t, i, j).value)
    decreases j - i
  {
    if i == j {
      pieces := [];
    } else {
      var p := FirstPiece(t, i, j);
      var s := PieceText(p);
      DecodePiece(t, i, j, p);
      var more := DecodedIsWritten(t, i + |s|, j);
      pieces := [p] + more;
      assert pieces[1..] == more;
      assert t[i..j] == t[i..i + |s|] + t[i + |s|..j];
    }
  }

  /** A stretch of text decodes to these units exactly if it is written from pieces that stand for them. */
  lemma DecodingIsExact(t: Text, i: int, j: int, units: Text)
    requires 0 <= i <= j <= |t|
    ensures Decode(t, i, j) == Some(units) <==> exists pieces :: Writes(pieces, t[i..j], units)
  {
    if Decode(t, i, j) == Some(units) {
      var pieces := DecodedIsWritten(t, i, j);
    }
    if pieces :| Writes(pieces, t[i..j], units) {
      WrittenIsDecoded(t, i, j, pieces);
    }
  }
}
