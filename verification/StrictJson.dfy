/**
 * The strict parser as a function of the text and the shared index, and its exactness: it
 * accepts precisely the grammar's texts whose value is admissible, and inverts printing.
 */
module StrictJson {
  import opened Basics
  import opened JsonGrammar

  datatype Parsed<+T> = Reject | At(value: T, next: nat)

  const MAX_DEPTH := 16

  function SkipWs(t: Text, i: nat): (r: nat)
    requires i <= |t|
    ensures i <= r <= |t| && AllWs(t, i, r) && (r < |t| ==> !IsWs(t[r]))
    decreases |t| - i
  {
    if i < |t| && IsWs(t[i]) then SkipWs(t, i + 1) else i
  }

  function SkipDigits(t: Text, i: nat): (r: nat)
    requires i <= |t|
    ensures AllDigits(t, i, r) && (r < |t| ==> !IsDigit(t[r]))
    decreases |t| - i
  {
    if i < |t| && IsDigit(t[i]) then SkipDigits(t, i + 1) else i
  }

  /** Just after the first unescaped quote at or after `i`. */
  function ScanString(t: Text, i: nat): Option<nat>
    decreases |t| - i
  {
    if i >= |t| then None
    else if t[i] == BACKSLASH then ScanString(t, i + 2)
    else if t[i] == QUOTE then Some(i + 1)
    else ScanString(t, i + 1)
  }

  lemma {:induction false} ScanStringEnd(t: Text, i: nat)
    ensures var e := ScanString(t, i); e.Some? ==> i < e.value <= |t| && t[e.value - 1] == QUOTE
    decreases |t| - i
  {
    if i < |t| && t[i] == BACKSLASH {
      ScanStringEnd(t, i + 2);
    } else if i < |t| && t[i] != QUOTE {
      ScanStringEnd(t, i + 1);
    }
  }

  /** A string literal whose opening quote is at `i`: scan to its end, then decode the slice. */
  function ParseString(t: Text, i: nat): (r: Parsed<Text>)
    requires i < |t|
    ensures r.At? ==> i < r.next <= |t|
  {
    ScanStringEnd(t, i + 1);
    var e := ScanString(t, i + 1);
    if e.None? then Reject
    else
      var units := Decode(t, i + 1, e.value - 1);
      if units.None? then Reject else At(units.value, e.value)
  }

  // ---- The longest match of the literal pattern ----

  function IntegerEnd(t: Text, i: nat): Option<nat>
    requires i <= |t|
  {
    if i == |t| || !IsDigit(t[i]) then None
    else if t[i] == ZERO then Some(i + 1)
    else Some(SkipDigits(t, i + 1))
  }

  function FractionEnd(t: Text, i: nat): (r: nat)
    requires i <= |t|
    ensures i <= r <= |t|
  {
    if i + 1 < |t| && t[i] == DOT && IsDigit(t[i + 1]) then SkipDigits(t, i + 1) else i
  }

  function ExponentEnd(t: Text, i: nat): (r: nat)
    requires i <= |t|
    ensures i <= r <= |t|
  {
    if i == |t| || !IsExponent(t[i]) then i
    else
      var s := if i + 1 < |t| && (t[i + 1] == PLUS || t[i + 1] == MINUS) then i + 2 else i + 1;
      if s < |t| && IsDigit(t[s]) then SkipDigits(t, s) else i
  }

  function NumberEnd(t: Text, i: nat): (r: Option<nat>)
    requires i <= |t|
    ensures r.Some? ==> i < r.value <= |t|
  {
    var p := if i < |t| && t[i] == MINUS then i + 1 else i;
    var q := IntegerEnd(t, p);
    if q.None? then None else Some(ExponentEnd(t, FractionEnd(t, q.value)))
  }

  function ParseLiteral(t: Text, i: nat): (r: Parsed<Value>)
    requires i <= |t|
    ensures r.At? ==> i < r.next <= |t|
  {
    if Has(t, i, WORD_TRUE) then At(Bool(true), i + 4)
    else if Has(t, i, WORD_FALSE) then At(Bool(false), i + 5)
    else if Has(t, i, WORD_NULL) then At(Null, i + 4)
    else
      var e := NumberEnd(t, i);
      if e.None? then Reject else At(Num(t[i..e.value]), e.value)
  }

  function ParseValue(t: Text, i: nat, depth: nat): (r: Parsed<Value>)
    requires i <= |t|
    ensures r.At? ==> i < r.next <= |t|
    decreases |t| - i, 1
  {
    if depth > MAX_DEPTH then Reject
    else
      var j := SkipWs(t, i);
      if j < |t| && t[j] == QUOTE then
        match ParseString(t, j)
        case Reject => Reject
        case At(units, next) => At(Str(units), next)
      else if j < |t| && t[j] == OPEN_ARRAY then
        var k := SkipWs(t, j + 1);
        if k < |t| && t[k] == CLOSE_ARRAY then At(Arr([]), k + 1)
        else
          match ParseElements(t, k, depth)
          case Reject => Reject
          case At(elements, next) => At(Arr(elements), next)
      else if j < |t| && t[j] == OPEN_OBJECT then
        var k := SkipWs(t, j + 1);
        if k < |t| && t[k] == CLOSE_OBJECT then At(Obj([]), k + 1)
        else
          match ParseMembers(t, k, depth, {})
          case Reject => Reject
          case At(members, next) => At(Obj(members), next)
      else ParseLiteral(t, j)
  }

  /** What the element loop still reads from `i`, up to and including the closing bracket. */
  function ParseElements(t: Text, i: nat, depth: nat): (r: Parsed<seq<Value>>)
    requires i <= |t|
    ensures r.At? ==> i < r.next <= |t|
    decreases |t| - i, 2
  {
    match ParseValue(t, i, depth + 1)
    case Reject => Reject
    case At(v, b) =>
      var c := SkipWs(t, b);
      if c == |t| then Reject
      else if t[c] == CLOSE_ARRAY then At([v], c + 1)
      else if t[c] != COMMA then Reject
      else
        match ParseElements(t, c + 1, depth)
        case Reject => Reject
        case At(rest, next) => At([v] + rest, next)
  }

  /** A member's name, which must not be among `seen`; checked before the colon is read. */
  function ParseName(t: Text, i: nat, seen: set<Text>): (r: Parsed<Text>)
    requires i <= |t|
    ensures r.At? ==> i < r.next <= |t|
  {
    var a := SkipWs(t, i);
    if a == |t| || t[a] != QUOTE then Reject
    else
      match ParseString(t, a)
      case Reject => Reject
      case At(name, k) =>
        if name in seen then Reject
        else
          var c := SkipWs(t, k);
          if c == |t| || t[c] != COLON then Reject else At(name, c + 1)
  }

  /** What the member loop still reads from `i`; `seen` are the names read so far. */
  function ParseMembers(t: Text, i: nat, depth: nat, seen: set<Text>): (r: Parsed<seq<Member>>)
    requires i <= |t|
    ensures r.At? ==> i < r.next <= |t|
    decreases |t| - i, 2
  {
    match ParseName(t, i, seen)
    case Reject => Reject
    case At(name, b) =>
      match ParseValue(t, b, depth + 1)
      case Reject => Reject
      case At(v, d) =>
        var e := SkipWs(t, d);
        if e == |t| then Reject
        else if t[e] == CLOSE_OBJECT then At([Member(name, v)], e + 1)
        else if t[e] != COMMA then Reject
        else
          match ParseMembers(t, e + 1, depth, seen + {name})
          case Reject => Reject
          case At(rest, next) => At([Member(name, v)] + rest, next)
  }

  function Parse(t: Text): Option<Value> {
    match ParseValue(t, 0, 0)
    case Reject => None
    case At(v, next) => if SkipWs(t, next) == |t| then Some(v) else None
  }

  // ---- Soundness: what is accepted is derivable and admissible ----

  lemma NumberIsDerivable(t: Text, i: nat)
    requires i <= |t| && NumberEnd(t, i).Some?
    ensures GNumber(t, i, NumberEnd(t, i).value)
  {
    var p := if i < |t| && t[i] == MINUS then i + 1 else i;
    var q := IntegerEnd(t, p).value;
    var r := FractionEnd(t, q);
    var e := ExponentEnd(t, r);
    assert GInteger(t, p, q);
    assert GFraction(t, q, r);
    assert GExponent(t, r, e) by {
      if e > r {
        var s := if r + 1 < |t| && (t[r + 1] == PLUS || t[r + 1] == MINUS) then r + 2 else r + 1;
        assert GSign(t, r + 1, s);
      }
    }
  }

  lemma LiteralIsDerivable(t: Text, i: nat, depth: nat)
    requires i <= |t| && ParseLiteral(t, i).At? && depth <= 16
    ensures var r := ParseLiteral(t, i);
      GValue(t, i, r.next, r.value) && Admissible(r.value, depth)
  {
    if NumberEnd(t, i).Some? {
      NumberIsDerivable(t, i);
    }
  }

  lemma StringIsDerivable(t: Text, i: nat, depth: nat)
    requires i < |t| && t[i] == QUOTE && ParseString(t, i).At? && depth <= 16
    ensures var r := ParseString(t, i);
      && GString(t, i, r.next, r.value)
      && GValue(t, i, r.next, Str(r.value)) && Admissible(Str(r.value), depth)
  {
    ScanStringEnd(t, i + 1);
  }

  lemma ArrayIsDerivable(t: Text, i: nat, k: nat, j: nat, elements: seq<Value>)
    requires i < |t| && t[i] == OPEN_ARRAY && k < j <= |t| && t[j - 1] == CLOSE_ARRAY
    requires AllWs(t, i + 1, k)
    requires if elements == [] then k == j - 1 else GElements(t, k, j - 1, elements)
    ensures GValue(t, i, j, Arr(elements))
  {
    if elements != [] {
      var a: nat, b: nat, c: nat :| GElement(t, k, a, b, c, elements[0])
        && if |elements| == 1 then c == j - 1
           else c < j - 1 <= |t| && t[c] == COMMA && GElements(t, c + 1, j - 1, elements[1..]);
      assert GElement(t, i + 1, a, b, c, elements[0]);
    }
  }

  lemma ObjectIsDerivable(t: Text, i: nat, k: nat, j: nat, members: seq<Member>)
    requires i < |t| && t[i] == OPEN_OBJECT && k < j <= |t| && t[j - 1] == CLOSE_OBJECT
    requires AllWs(t, i + 1, k)
    requires if members == [] then k == j - 1 else GMembers(t, k, j - 1, members)
    ensures GValue(t, i, j, Obj(members))
  {
    if members != [] {
      var a: nat, b: nat, c: nat, d: nat, e: nat :| GName(t, k, a, b, members[0].name) && GElement(t, b, c, d, e, members[0].value)
        && if |members| == 1 then e == j - 1
           else e < j - 1 <= |t| && t[e] == COMMA && GMembers(t, e + 1, j - 1, members[1..]);
      assert GName(t, i + 1, a, b, members[0].name);
    }
  }

  lemma ElementsBegin(t: Text, i: nat, a: nat, b: nat, c: nat, v: Value, j: nat, rest: seq<Value>)
    requires GElement(t, i, a, b, c, v)
    requires if rest == [] then c == j else c < j <= |t| && t[c] == COMMA && GElements(t, c + 1, j, rest)
    ensures GElements(t, i, j, [v] + rest)
  {
    var all := [v] + rest;
    assert all[1..] == rest && all[0] == v;
    assert GElement(t, i, a, b, c, all[0]);
  }

  lemma MembersBegin(t: Text, i: nat, a: nat, b: nat, c: nat, d: nat, e: nat, m: Member, j: nat, rest: seq<Member>)
    requires GName(t, i, a, b, m.name) && GElement(t, b, c, d, e, m.value)
    requires if rest == [] then e == j else e < j <= |t| && t[e] == COMMA && GMembers(t, e + 1, j, rest)
    ensures GMembers(t, i, j, [m] + rest)
  {
    var all := [m] + rest;
    assert all[1..] == rest && all[0] == m;
    assert GName(t, i, a, b, all[0].name) && GElement(t, b, c, d, e, all[0].value);
  }

  /** The parser's value is derived by exactly the text it consumed, and it is admissible. */
  lemma {:induction false} ValueIsDerivable(t: Text, i: nat, depth: nat)
    requires i <= |t| && ParseValue(t, i, depth).At?
    ensures var r := ParseValue(t, i, depth);
      GValue(t, SkipWs(t, i), r.next, r.value) && Admissible(r.value, depth)
    decreases |t| - i, 1
  {
    hide GValue, GElements, GMembers, ParseLiteral, ParseString, ParseElements, ParseMembers, AllWs, GoodMembers;
    var j := SkipWs(t, i);
    var r := ParseValue(t, i, depth);
    if j < |t| && t[j] == QUOTE {
      StringIsDerivable(t, j, depth);
    } else if j < |t| && t[j] == OPEN_ARRAY {
      var k := SkipWs(t, j + 1);
      if !(k < |t| && t[k] == CLOSE_ARRAY) {
        ElementsAreDerivable(t, k, depth);
      }
      ArrayIsDerivable(t, j, k, r.next, r.value.elements);
    } else if j < |t| && t[j] == OPEN_OBJECT {
      var k := SkipWs(t, j + 1);
      if !(k < |t| && t[k] == CLOSE_OBJECT) {
        MembersAreDerivable(t, k, depth, {});
        GoodMembersAre(r.value.members, depth + 1, {});
      }
      ObjectIsDerivable(t, j, k, r.next, r.value.members);
    } else {
      LiteralIsDerivable(t, j, depth);
    }
  }

  /** The same with the white space that follows. */
  lemma ElementIsDerivable(t: Text, i: nat, depth: nat)
    requires i <= |t| && ParseValue(t, i, depth).At?
    ensures var r := ParseValue(t, i, depth);
      GElement(t, i, SkipWs(t, i), r.next, SkipWs(t, r.next), r.value) && Admissible(r.value, depth)
    decreases |t| - i, 2
  {
    hide GValue, ParseValue, Admissible;
    ValueIsDerivable(t, i, depth);
  }

  lemma {:induction false} ElementsAreDerivable(t: Text, i: nat, depth: nat)
    requires i <= |t| && ParseElements(t, i, depth).At?
    ensures var r := ParseElements(t, i, depth);
      && r.value != [] && t[r.next - 1] == CLOSE_ARRAY
      && GElements(t, i, r.next - 1, r.value)
      && forall e <- r.value :: Admissible(e, depth + 1)
    decreases |t| - i, 3
  {
    hide GValue, GElements, GElement, AllWs, Admissible, ParseValue, SkipWs;
    ElementIsDerivable(t, i, depth + 1);
    var first := ParseValue(t, i, depth + 1);
    var c := SkipWs(t, first.next);
    var r := ParseElements(t, i, depth);
    if t[c] == CLOSE_ARRAY {
      ElementsBegin(t, i, SkipWs(t, i), first.next, c, first.value, c, []);
      assert [first.value] + [] == r.value;
    } else {
      ElementsAreDerivable(t, c + 1, depth);
      var rest := ParseElements(t, c + 1, depth);
      ElementsBegin(t, i, SkipWs(t, i), first.next, c, first.value, r.next - 1, rest.value);
    }
  }

  lemma NameIsDerivable(t: Text, i: nat, seen: set<Text>)
    requires i <= |t| && ParseName(t, i, seen).At?
    ensures var r := ParseName(t, i, seen); GName(t, i, SkipWs(t, i), r.next, r.value) && r.value !in seen
  {
    hide ParseString, GString;
    var a := SkipWs(t, i);
    StringIsDerivable(t, a, 0);
  }

  /** Read one by one: each name is new and each value admissible. */
  predicate GoodMembers(members: seq<Member>, depth: int, seen: set<Text>) {
    members == [] ||
    (&& Admissible(members[0].value, depth)
     && members[0].name !in seen
     && GoodMembers(members[1..], depth, seen + {members[0].name}))
  }

  predicate DistinctNames(members: seq<Member>) {
    forall x, y :: 0 <= x < y < |members| ==> members[x].name != members[y].name
  }

  lemma DistinctNamesBegin(m: Member, rest: seq<Member>)
    ensures DistinctNames([m] + rest) <==> DistinctNames(rest) && forall r <- rest :: r.name != m.name
  {
    var all := [m] + rest;
    assert forall y :: 0 <= y < |rest| ==> all[y + 1] == rest[y];
    if DistinctNames(all) {
      forall r <- rest ensures r.name != m.name {
        var y :| 0 <= y < |rest| && rest[y] == r;
        assert all[0].name != all[y + 1].name;
      }
      forall x, y | 0 <= x < y < |rest| ensures rest[x].name != rest[y].name {
        assert all[x + 1].name != all[y + 1].name;
      }
    }
  }

  /** Names new one by one are distinct names outside `seen`. */
  lemma {:induction false} GoodMembersAre(members: seq<Member>, depth: int, seen: set<Text>)
    ensures GoodMembers(members, depth, seen) <==>
      && (forall m <- members :: Admissible(m.value, depth))
      && (forall m <- members :: m.name !in seen)
      && DistinctNames(members)
  {
    hide Admissible, DistinctNames;
    if members == [] {
      assert DistinctNames(members) by { NoNames(); }
    } else {
      var m, rest := members[0], members[1..];
      GoodMembersAre(rest, depth, seen + {m.name});
      assert members == [m] + rest;
      DistinctNamesBegin(m, rest);
    }
  }

  lemma NoNames()
    ensures DistinctNames([])
  {
  }

  lemma {:induction false} MembersAreDerivable(t: Text, i: nat, depth: nat, seen: set<Text>)
    requires i <= |t| && ParseMembers(t, i, depth, seen).At?
    ensures var r := ParseMembers(t, i, depth, seen);
      && r.value != [] && t[r.next - 1] == CLOSE_OBJECT
      && GMembers(t, i, r.next - 1, r.value)
      && GoodMembers(r.value, depth + 1, seen)
    decreases |t| - i, 3
  {
    hide GValue, GMembers, GElement, GName, AllWs, Admissible, ParseName, ParseValue, SkipWs;
    NameIsDerivable(t, i, seen);
    var name := ParseName(t, i, seen);
    ElementIsDerivable(t, name.next, depth + 1);
    var first := ParseValue(t, name.next, depth + 1);
    var c, e := SkipWs(t, name.next), SkipWs(t, first.next);
    var m := Member(name.value, first.value);
    var r := ParseMembers(t, i, depth, seen);
    if t[e] == CLOSE_OBJECT {
      MembersBegin(t, i, SkipWs(t, i), name.next, c, first.next, e, m, e, []);
      assert [m] + [] == r.value;
    } else {
      var more := seen + {name.value};
      MembersAreDerivable(t, e + 1, depth, more);
      var rest := ParseMembers(t, e + 1, depth, more);
      assert ([m] + rest.value)[1..] == rest.value;
      MembersBegin(t, i, SkipWs(t, i), name.next, c, first.next, e, m, r.next - 1, rest.value);
    }
  }

  // ---- Completeness: what is derivable and admissible is accepted ----

  /** What may come after a value: the end, white space, a comma or a closing bracket. */
  predicate Follow(t: Text, j: int) {
    0 <= j <= |t| &&
    (j == |t| || IsWs(t[j]) || t[j] == COMMA || t[j] == CLOSE_ARRAY || t[j] == CLOSE_OBJECT)
  }

  lemma {:induction false} WsIsSkipped(t: Text, i: nat, j: nat)
    requires AllWs(t, i, j) && (j < |t| ==> !IsWs(t[j]))
    ensures SkipWs(t, i) == j
    decreases j - i
  {
    if i < j {
      WsIsSkipped(t, i + 1, j);
    }
  }

  lemma {:induction false} DigitsAreSkipped(t: Text, i: nat, j: nat)
    requires AllDigits(t, i, j) && (j < |t| ==> !IsDigit(t[j]))
    ensures SkipDigits(t, i) == j
    decreases j - i
  {
    if i < j {
      DigitsAreSkipped(t, i + 1, j);
    }
  }

  lemma {:induction false} ScanFindsEnd(t: Text, i: nat, m: nat)
    requires m < |t| && t[m] == QUOTE && Decode(t, i, m).Some?
    ensures ScanString(t, i) == Some(m + 1)
    decreases m - i
  {
    if i < m {
      if t[i] != BACKSLASH {
        ScanFindsEnd(t, i + 1, m);
      } else if t[i + 1] != LETTER_U {
        ScanFindsEnd(t, i + 2, m);
      } else {
        ScanFindsEnd(t, i + 6, m);
        assert ScanString(t, i + 5) == ScanString(t, i + 6);
        assert ScanString(t, i + 4) == ScanString(t, i + 5);
        assert ScanString(t, i + 3) == ScanString(t, i + 4);
        assert ScanString(t, i + 2) == ScanString(t, i + 3);
      }
    }
  }

  lemma StringIsRead(t: Text, i: nat, j: nat, units: Text)
    requires GString(t, i, j, units)
    ensures ParseString(t, i) == At(units, j)
  {
    ScanFindsEnd(t, i + 1, j - 1);
  }

  lemma IntegerIsRead(t: Text, i: nat, j: nat)
    requires GInteger(t, i, j) && (j < |t| ==> !IsDigit(t[j]))
    ensures IntegerEnd(t, i) == Some(j)
  {
    if t[i] != ZERO {
      DigitsAreSkipped(t, i + 1, j);
    }
  }

  lemma FractionIsRead(t: Text, i: nat, j: nat)
    requires i <= |t| && GFraction(t, i, j) && (j < |t| ==> !IsDigit(t[j]) && t[j] != DOT)
    ensures FractionEnd(t, i) == j
  {
    if i < j {
      DigitsAreSkipped(t, i + 1, j);
    }
  }

  lemma ExponentIsRead(t: Text, i: nat, j: nat)
    requires i <= |t| && GExponent(t, i, j) && Follow(t, j)
    ensures ExponentEnd(t, i) == j
  {
    if i < j {
      var s :| GSign(t, i + 1, s) && s < j && AllDigits(t, s, j);
      DigitsAreSkipped(t, s, j);
    }
  }

  lemma NumberIsRead(t: Text, i: nat, j: nat)
    requires GNumber(t, i, j) && Follow(t, j)
    ensures i <= |t| && NumberEnd(t, i) == Some(j)
    ensures IsDigit(t[i]) || t[i] == MINUS
  {
    var p, q, r :|
      && (p == i || (p == i + 1 && 0 <= i < |t| && t[i] == MINUS))
      && GInteger(t, p, q) && GFraction(t, q, r) && GExponent(t, r, j);
    assert r < |t| ==> !IsDigit(t[r]) && t[r] != DOT;
    assert q < |t| ==> !IsDigit(t[q]);
    IntegerIsRead(t, p, q);
    FractionIsRead(t, q, r);
    ExponentIsRead(t, r, j);
  }

  /** A value begins with something other than white space, a comma or a closing bracket. */
  lemma FirstUnit(t: Text, a: nat, b: nat, v: Value)
    requires GValue(t, a, b, v)
    ensures a < b && !IsWs(t[a]) && t[a] != COMMA && t[a] != CLOSE_ARRAY && t[a] != CLOSE_OBJECT
    ensures t[a] == QUOTE ==> v.Str?
    ensures t[a] == OPEN_ARRAY ==> v.Arr?
    ensures t[a] == OPEN_OBJECT ==> v.Obj?
  {
    assert t[a..b][0] == t[a];
    if v.Num? {
      assert GNumber(t, a, b);
    }
  }

  lemma LiteralIsRead(t: Text, i: nat, j: nat, v: Value)
    requires GValue(t, i, j, v) && Follow(t, j) && (v.Null? || v.Bool? || v.Num?)
    ensures ParseLiteral(t, i) == At(v, j)
    ensures t[i] != QUOTE && t[i] != OPEN_ARRAY && t[i] != OPEN_OBJECT
  {
    assert t[i..j][0] == t[i];
    WordBegins(t, i, WORD_TRUE);
    WordBegins(t, i, WORD_FALSE);
    WordBegins(t, i, WORD_NULL);
    if v.Num? {
      NumberIsRead(t, i, j);
    } else {
      assert Has(t, i, t[i..j]);
    }
  }

  lemma WordBegins(t: Text, i: nat, word: Text)
    requires i < |t| && word != []
    ensures Has(t, i, word) ==> t[i] == word[0]
  {
    assert Has(t, i, word) ==> t[i..i + |word|][0] == t[i];
  }

  lemma ParseSkipsWs(t: Text, i: nat, depth: nat)
    requires i <= |t|
    ensures ParseElements(t, SkipWs(t, i), depth) == ParseElements(t, i, depth)
    ensures ParseMembers(t, SkipWs(t, i), depth, {}) == ParseMembers(t, i, depth, {})
  {
    hide ParseValue, ParseName, SkipWs;
    ParseValueSkipsWs(t, i, depth + 1);
    ParseNameSkipsWs(t, i);
  }

  lemma ParseNameSkipsWs(t: Text, i: nat)
    requires i <= |t|
    ensures ParseName(t, SkipWs(t, i), {}) == ParseName(t, i, {})
  {
    hide ParseString;
    WsIsSkipped(t, SkipWs(t, i), SkipWs(t, i));
  }

  lemma ParseValueSkipsWs(t: Text, i: nat, depth: nat)
    requires i <= |t|
    ensures ParseValue(t, SkipWs(t, i), depth) == ParseValue(t, i, depth)
    ensures SkipWs(t, SkipWs(t, i)) == SkipWs(t, i)
  {
    hide ParseElements, ParseMembers, ParseString, ParseLiteral;
    WsIsSkipped(t, SkipWs(t, i), SkipWs(t, i));
  }

  /** Every derivable admissible value is read, wherever it stands. */
  lemma {:induction false} ValueIsRead(t: Text, i: nat, a: nat, b: nat, v: Value, depth: nat)
    requires AllWs(t, i, a) && GValue(t, a, b, v) && Follow(t, b) && Admissible(v, depth)
    ensures i <= |t| && ParseValue(t, i, depth) == At(v, b)
    decreases v, 0
  {
    hide GElements, GMembers, ParseElements, ParseMembers, ParseLiteral, ParseString, GNumber, GoodMembers, SkipWs;
    FirstUnit(t, a, b, v);
    WsIsSkipped(t, i, a);
    match v {
      case Str(units) => StringIsRead(t, a, b, units);
      case Arr(elements) =>
        var k := SkipWs(t, a + 1);
        if elements == [] {
          WsIsSkipped(t, a + 1, b - 1);
        } else {
          ElementsAreRead(t, a + 1, b - 1, elements, depth);
          ParseSkipsWs(t, a + 1, depth);
          ElementsStart(t, a + 1, b - 1, elements);
        }
      case Obj(members) =>
        if members == [] {
          WsIsSkipped(t, a + 1, b - 1);
        } else {
          GoodMembersAre(members, depth + 1, {});
          MembersAreRead(t, a + 1, b - 1, members, depth, {});
          ParseSkipsWs(t, a + 1, depth);
          MembersStart(t, a + 1, b - 1, members);
        }
      case _ => LiteralIsRead(t, a, b, v);
    }
  }

  lemma ElementsStart(t: Text, i: nat, j: nat, elements: seq<Value>)
    requires GElements(t, i, j, elements)
    ensures i <= |t| && SkipWs(t, i) < |t| && t[SkipWs(t, i)] != CLOSE_ARRAY
  {
    var a: nat, b: nat, c: nat :| GElement(t, i, a, b, c, elements[0]);
    FirstUnit(t, a, b, elements[0]);
    WsIsSkipped(t, i, a);
  }

  lemma NameStart(t: Text, i: nat, a: int, b: int, name: Text)
    requires GName(t, i, a, b, name)
    ensures i <= a <= |t| && 0 <= b && SkipWs(t, i) == a < |t| && t[a] == QUOTE
  {
    WsIsSkipped(t, i, a);
  }

  lemma MembersStart(t: Text, i: nat, j: nat, members: seq<Member>)
    requires GMembers(t, i, j, members)
    ensures i <= |t| && SkipWs(t, i) < |t| && t[SkipWs(t, i)] != CLOSE_OBJECT
  {
    var a: nat, b: nat, c: nat, d: nat, e: nat :| GName(t, i, a, b, members[0].name) && GElement(t, b, c, d, e, members[0].value);
    NameStart(t, i, a, b, members[0].name);
  }

  lemma ElementsStep(t: Text, i: nat, depth: nat, v: Value, b: nat, c: nat)
    requires i <= |t| && ParseValue(t, i, depth + 1) == At(v, b) && SkipWs(t, b) == c < |t|
    ensures t[c] == CLOSE_ARRAY ==> ParseElements(t, i, depth) == At([v], c + 1)
    ensures t[c] == COMMA && ParseElements(t, c + 1, depth).At? ==>
      var rest := ParseElements(t, c + 1, depth); ParseElements(t, i, depth) == At([v] + rest.value, rest.next)
  {
    hide ParseValue;
  }

  lemma MembersStep(t: Text, i: nat, depth: nat, seen: set<Text>, m: Member, b: nat, d: nat, e: nat)
    requires i <= |t| && ParseName(t, i, seen) == At(m.name, b)
    requires ParseValue(t, b, depth + 1) == At(m.value, d) && SkipWs(t, d) == e < |t|
    ensures t[e] == CLOSE_OBJECT ==> ParseMembers(t, i, depth, seen) == At([m], e + 1)
    ensures t[e] == COMMA && ParseMembers(t, e + 1, depth, seen + {m.name}).At? ==>
      var rest := ParseMembers(t, e + 1, depth, seen + {m.name});
      ParseMembers(t, i, depth, seen) == At([m] + rest.value, rest.next)
  {
    hide ParseValue, ParseName;
  }

  lemma {:induction false} ElementsAreRead(t: Text, i: nat, j: nat, elements: seq<Value>, depth: nat)
    requires GElements(t, i, j, elements) && j < |t| && t[j] == CLOSE_ARRAY
    requires forall e <- elements :: Admissible(e, depth + 1)
    ensures i <= |t| && ParseElements(t, i, depth) == At(elements, j + 1)
    decreases elements, 1
  {
    hide GValue, GElement, ParseValue, ParseElements, SkipWs;
    var a: nat, b: nat, c: nat :| GElement(t, i, a, b, c, elements[0])
      && if |elements| == 1 then c == j
         else c < j <= |t| && t[c] == COMMA && GElements(t, c + 1, j, elements[1..]);
    assert elements[0] in elements;
    ElementIsRead(t, i, a, b, c, elements[0], depth + 1);
    if |elements| > 1 {
      forall e <- elements[1..] ensures Admissible(e, depth + 1) {
        assert e in elements;
      }
      ElementsAreRead(t, c + 1, j, elements[1..], depth);
      ElementsStep(t, i, depth, elements[0], b, c);
      assert [elements[0]] + elements[1..] == elements;
    } else {
      ElementsStep(t, i, depth, elements[0], b, c);
      assert [elements[0]] == elements;
    }
  }

  lemma ElementIsRead(t: Text, i: nat, a: nat, b: nat, c: nat, v: Value, depth: nat)
    requires GElement(t, i, a, b, c, v) && Admissible(v, depth)
    requires c == |t| || t[c] == COMMA || t[c] == CLOSE_ARRAY || t[c] == CLOSE_OBJECT
    ensures i <= |t| && ParseValue(t, i, depth) == At(v, b) && SkipWs(t, b) == c
    decreases v, 1
  {
    hide GValue, Admissible, ParseValue;
    WsIsSkipped(t, b, c);
    ValueIsRead(t, i, a, b, v, depth);
  }

  lemma NameIsRead(t: Text, i: nat, a: nat, b: nat, name: Text, seen: set<Text>)
    requires GName(t, i, a, b, name) && name !in seen
    ensures i <= |t| && ParseName(t, i, seen) == At(name, b)
  {
    hide ParseString;
    var k :| GString(t, a, k, name) && AllWs(t, k, b - 1) && b <= |t| && t[b - 1] == COLON;
    WsIsSkipped(t, i, a);
    StringIsRead(t, a, k, name);
    WsIsSkipped(t, k, b - 1);
  }

  lemma {:induction false} MembersAreRead(
    t: Text, i: nat, j: nat, members: seq<Member>, depth: nat, seen: set<Text>)
    requires GMembers(t, i, j, members) && j < |t| && t[j] == CLOSE_OBJECT
    requires GoodMembers(members, depth + 1, seen)
    ensures i <= |t| && ParseMembers(t, i, depth, seen) == At(members, j + 1)
    decreases members, 1
  {
    hide GValue, GName, GElement, Admissible, ParseValue, ParseName, ParseMembers, SkipWs;
    var a: nat, b: nat, c: nat, d: nat, e: nat :| GName(t, i, a, b, members[0].name) && GElement(t, b, c, d, e, members[0].value)
      && if |members| == 1 then e == j
         else e < j <= |t| && t[e] == COMMA && GMembers(t, e + 1, j, members[1..]);
    NameStart(t, i, a, b, members[0].name);
    NameIsRead(t, i, a, b, members[0].name, seen);
    ElementIsRead(t, b, c, d, e, members[0].value, depth + 1);
    if |members| > 1 {
      MembersAreRead(t, e + 1, j, members[1..], depth, seen + {members[0].name});
      MembersStep(t, i, depth, seen, members[0], b, d, e);
      assert [members[0]] + members[1..] == members;
    } else {
      MembersStep(t, i, depth, seen, members[0], b, d, e);
      assert [members[0]] == members;
    }
  }

  /**
   * strictJson is exact: it returns `v` for a text if and only if the grammar derives `v`
   * from the whole text, no object in it repeats a decoded name and it nests at most 16 deep.
   */
  lemma ParseIsExact(t: Text, v: Value)
    ensures Parse(t) == Some(v) <==> GText(t, v) && Admissible(v, 0)
  {
    hide GValue, ParseValue, Admissible;
    if Parse(t) == Some(v) {
      ElementIsDerivable(t, 0, 0);
    }
    if GText(t, v) && Admissible(v, 0) {
      var i: nat, j: nat :| GElement(t, 0, i, j, |t|, v);
      ElementIsRead(t, 0, i, j, |t|, v, 0);
    }
  }

  /** So a text has at most one admissible value. */
  lemma ParseIsUnambiguous(t: Text, v: Value, w: Value)
    requires GText(t, v) && GText(t, w) && Admissible(v, 0) && Admissible(w, 0)
    ensures v == w
  {
    ParseIsExact(t, v);
    ParseIsExact(t, w);
  }
}
