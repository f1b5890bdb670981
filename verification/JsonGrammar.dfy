/**
 * The JSON grammar (sections 2 to 7 of RFC 8259) as a relation between a stretch of text and
 * a value, over UTF-16 code units. A number keeps its lexeme; a decoded string is a sequence
 * of code units, which may be unpaired surrogates, as section 8.2 allows.
 */
module JsonGrammar {
  import opened Basics

  type Unit = n: int | 0 <= n < 0x10000

  type Text = seq<Unit>

  datatype Value =
    | Null
    | Bool(b: bool)
    | Num(lexeme: Text)
    | Str(units: Text)
    | Arr(elements: seq<Value>)
    | Obj(members: seq<Member>)

  datatype Member = Member(name: Text, value: Value)

  const QUOTE: Unit := 0x22
  const BACKSLASH: Unit := 0x5c
  const COMMA: Unit := 0x2c
  const COLON: Unit := 0x3a
  const MINUS: Unit := 0x2d
  const PLUS: Unit := 0x2b
  const DOT: Unit := 0x2e
  const ZERO: Unit := 0x30
  const OPEN_ARRAY: Unit := 0x5b
  const CLOSE_ARRAY: Unit := 0x5d
  const OPEN_OBJECT: Unit := 0x7b
  const CLOSE_OBJECT: Unit := 0x7d
  const LETTER_U: Unit := 0x75

  const WORD_TRUE: Text := [0x74, 0x72, 0x75, 0x65]
  const WORD_FALSE: Text := [0x66, 0x61, 0x6c, 0x73, 0x65]
  const WORD_NULL: Text := [0x6e, 0x75, 0x6c, 0x6c]

  predicate IsWs(c: Unit) {
    c == 0x20 || c == 0x09 || c == 0x0a || c == 0x0d
  }

  predicate IsDigit(c: Unit) {
    0x30 <= c <= 0x39
  }

  predicate IsExponent(c: Unit) {
    c == 0x65 || c == 0x45
  }

  function HexValue(c: Unit): Option<Unit> {
    if 0x30 <= c <= 0x39 then Some(c - 0x30)
    else if 0x41 <= c <= 0x46 then Some(c - 0x41 + 10)
    else if 0x61 <= c <= 0x66 then Some(c - 0x61 + 10)
    else None
  }

  /** The unit written by a two-character escape. */
  function Escape(c: Unit): Option<Unit> {
    if c == QUOTE || c == BACKSLASH || c == 0x2f then Some(c)
    else if c == 0x62 then Some(0x08)
    else if c == 0x66 then Some(0x0c)
    else if c == 0x6e then Some(0x0a)
    else if c == 0x72 then Some(0x0d)
    else if c == 0x74 then Some(0x09)
    else None
  }

  /** `s` stands in `t` at `i`. */
  predicate Has(t: Text, i: int, s: Text) {
    0 <= i && i + |s| <= |t| && t[i..i + |s|] == s
  }

  predicate AllWs(t: Text, i: int, j: int) {
    0 <= i <= j <= |t| && forall k :: i <= k < j ==> IsWs(t[k])
  }

  predicate AllDigits(t: Text, i: int, j: int) {
    0 <= i <= j <= |t| && forall k :: i <= k < j ==> IsDigit(t[k])
  }

  // ---- Numbers (section 6): [ minus ] int [ frac ] [ exp ] ----

  predicate GInteger(t: Text, i: int, j: int) {
    && 0 <= i < j <= |t|
    && if t[i] == ZERO then j == i + 1 else IsDigit(t[i]) && AllDigits(t, i + 1, j)
  }

  predicate GFraction(t: Text, i: int, j: int) {
    i == j || (0 <= i && i + 1 < j <= |t| && t[i] == DOT && AllDigits(t, i + 1, j))
  }

  predicate GSign(t: Text, i: int, j: int) {
    i == j || (0 <= i && j == i + 1 <= |t| && (t[i] == PLUS || t[i] == MINUS))
  }

  ghost predicate GExponent(t: Text, i: int, j: int) {
    i == j || (0 <= i < j <= |t| && IsExponent(t[i])
               && exists s :: GSign(t, i + 1, s) && s < j && AllDigits(t, s, j))
  }

  ghost predicate GNumber(t: Text, i: int, j: int) {
    exists p, q, r ::
      && (p == i || (p == i + 1 && 0 <= i < |t| && t[i] == MINUS))
      && GInteger(t, p, q) && GFraction(t, q, r) && GExponent(t, r, j)
  }

  // ---- Strings (section 7) ----

  function Cons(c: Unit, rest: Option<Text>): Option<Text> {
    if rest.Some? then Some([c] + rest.value) else None
  }

  /** The units that t[i..j], the inside of a string literal, stands for; None if it is none. */
  function Decode(t: Text, i: int, j: int): Option<Text>
    requires 0 <= i && j <= |t|
    decreases j - i
  {
    if i >= j then (if i == j then Some([]) else None)
    else if t[i] < 0x20 || t[i] == QUOTE then None
    else if t[i] != BACKSLASH then Cons(t[i], Decode(t, i + 1, j))
    else if i + 1 >= j then None
    else if t[i + 1] != LETTER_U then
      if Escape(t[i + 1]).Some? then Cons(Escape(t[i + 1]).value, Decode(t, i + 2, j)) else None
    else if i + 6 > j then None
    else
      var hex := HexUnit(t, i + 2);
      if hex.Some? then Cons(hex.value, Decode(t, i + 6, j)) else None
  }

  /** The unit written by the four hexadecimal digits at `i`. */
  function HexUnit(t: Text, i: int): Option<Unit>
    requires 0 <= i && i + 4 <= |t|
  {
    var a, b, c, d := HexValue(t[i]), HexValue(t[i + 1]), HexValue(t[i + 2]), HexValue(t[i + 3]);
    if a.Some? && b.Some? && c.Some? && d.Some? && a.value < 16 && b.value < 16 && c.value < 16 && d.value < 16
    then Some(a.value * 0x1000 + b.value * 0x100 + c.value * 0x10 + d.value)
    else None
  }

  predicate GString(t: Text, i: int, j: int, units: Text) {
    && 0 <= i && i + 2 <= j <= |t|
    && t[i] == QUOTE && t[j - 1] == QUOTE
    && Decode(t, i + 1, j - 1) == Some(units)
  }

  // ---- Values, arrays and objects (sections 2 to 5) ----

  ghost predicate GValue(t: Text, i: int, j: int, v: Value)
    decreases v, 0
  {
    && 0 <= i < j <= |t|
    && match v
       case Null => t[i..j] == WORD_NULL
       case Bool(b) => t[i..j] == if b then WORD_TRUE else WORD_FALSE
       case Num(lexeme) => t[i..j] == lexeme && GNumber(t, i, j)
       case Str(units) => GString(t, i, j, units)
       case Arr(elements) =>
         && i + 2 <= j && t[i] == OPEN_ARRAY && t[j - 1] == CLOSE_ARRAY
         && (if elements == [] then AllWs(t, i + 1, j - 1) else GElements(t, i + 1, j - 1, elements))
       case Obj(members) =>
         && i + 2 <= j && t[i] == OPEN_OBJECT && t[j - 1] == CLOSE_OBJECT
         && (if members == [] then AllWs(t, i + 1, j - 1) else GMembers(t, i + 1, j - 1, members))
  }

  /** value *( value-separator value ), with white space around each value. */
  ghost predicate GElements(t: Text, i: int, j: int, elements: seq<Value>)
    decreases elements, 1
  {
    && elements != []
    && exists a: nat, b: nat, c: nat :: GElement(t, i, a, b, c, elements[0])
         && if |elements| == 1 then c == j
            else c < j <= |t| && t[c] == COMMA && GElements(t, c + 1, j, elements[1..])
  }

  ghost predicate GElement(t: Text, i: int, a: int, b: int, c: int, v: Value)
    decreases v, 1
  {
    AllWs(t, i, a) && GValue(t, a, b, v) && AllWs(t, b, c)
  }

  /** member *( value-separator member ). */
  ghost predicate GMembers(t: Text, i: int, j: int, members: seq<Member>)
    decreases members, 1
  {
    && members != []
    && exists a: nat, b: nat, c: nat, d: nat, e: nat :: GName(t, i, a, b, members[0].name) && GElement(t, b, c, d, e, members[0].value)
         && if |members| == 1 then e == j
            else e < j <= |t| && t[e] == COMMA && GMembers(t, e + 1, j, members[1..])
  }

  /** string name-separator, with white space around both; `b` is just after the colon. */
  ghost predicate GName(t: Text, i: int, a: int, b: int, name: Text) {
    && AllWs(t, i, a)
    && exists k :: GString(t, a, k, name) && AllWs(t, k, b - 1) && b <= |t| && t[b - 1] == COLON
  }

  /** JSON-text = ws value ws. */
  ghost predicate GText(t: Text, v: Value) {
    exists i: nat, j: nat :: GElement(t, 0, i, j, |t|, v)
  }

  /** Nesting at most 16 below `depth`, and no object with two equal decoded names. */
  predicate Admissible(v: Value, depth: int)
    decreases v
  {
    && depth <= 16
    && match v
       case Arr(elements) => forall e <- elements :: Admissible(e, depth + 1)
       case Obj(members) =>
         && (forall m <- members :: Admissible(m.value, depth + 1))
         && (forall i, j :: 0 <= i < j < |members| ==> members[i].name != members[j].name)
       case _ => true
  }
}
