/** Printing a value and reading it back: strictJson inverts a compact printer. */
module JsonPrinting {
  import opened Basics
  import opened JsonGrammar
  import StrictJson

  function HexDigit(n: int): Unit
    requires 0 <= n < 16
  {
    if n < 10 then 0x30 + n else 0x61 + n - 10
  }

  function PrintUnit(u: Unit): Text {
    if u == QUOTE || u == BACKSLASH then [BACKSLASH, u]
    else if u < 0x20 then [BACKSLASH, LETTER_U, ZERO, ZERO, HexDigit(u / 16), HexDigit(u % 16)]
    else [u]
  }

  function PrintUnits(units: Text): Text {
    if units == [] then [] else PrintUnit(units[0]) + PrintUnits(units[1..])
  }

  function PrintString(units: Text): Text {
    [QUOTE] + PrintUnits(units) + [QUOTE]
  }

  function Print(v: Value): Text
    decreases v, 0
  {
    match v
    case Null => WORD_NULL
    case Bool(b) => if b then WORD_TRUE else WORD_FALSE
    case Num(lexeme) => lexeme
    case Str(units) => PrintString(units)
    case Arr(elements) => [OPEN_ARRAY] + PrintElements(elements) + [CLOSE_ARRAY]
    case Obj(members) => [OPEN_OBJECT] + PrintMembers(members) + [CLOSE_OBJECT]
  }

  function PrintElements(elements: seq<Value>): Text
    decreases elements, 0
  {
    if elements == [] then []
    else if |elements| == 1 then Print(elements[0])
    else Print(elements[0]) + ([COMMA] + PrintElements(elements[1..]))
  }

  function PrintMember(m: Member): Text
    decreases m, 0
  {
    PrintString(m.name) + ([COLON] + Print(m.value))
  }

  function PrintMembers(members: seq<Member>): Text
    decreases members, 0
  {
    if members == [] then []
    else if |members| == 1 then PrintMember(members[0])
    else PrintMember(members[0]) + ([COMMA] + PrintMembers(members[1..]))
  }

  /** Every number in the value keeps a lexeme of the grammar. */
  ghost predicate Printable(v: Value)
    decreases v
  {
    match v
    case Num(lexeme) => GNumber(lexeme, 0, |lexeme|)
    case Arr(elements) => forall e <- elements :: Printable(e)
    case Obj(members) => forall m <- members :: Printable(m.value)
    case _ => true
  }

  lemma HasBoth(t: Text, i: int, a: Text, b: Text)
    requires Has(t, i, a + b)
    ensures Has(t, i, a) && Has(t, i + |a|, b)
  {
    var s := t[i..i + |a + b|];
    assert s[..|a|] == a && s[|a|..] == b;
    assert t[i..i + |a|] == s[..|a|];
    assert t[i + |a|..i + |a| + |b|] == s[|a|..];
  }

  lemma HasUnit(t: Text, i: int, s: Text, k: int)
    requires Has(t, i, s) && 0 <= k < |s|
    ensures t[i + k] == s[k]
  {
    assert t[i..i + |s|][k] == s[k];
  }

  lemma UnitIsDecoded(t: Text, i: nat, j: nat, u: Unit)
    requires Has(t, i, PrintUnit(u)) && i + |PrintUnit(u)| <= j <= |t|
    ensures Decode(t, i, j) == Cons(u, Decode(t, i + |PrintUnit(u)|, j))
  {
    var s := PrintUnit(u);
    HasUnit(t, i, s, 0);
    if |s| > 1 {
      HasUnit(t, i, s, 1);
    }
    if |s| > 2 {
      HasUnit(t, i, s, 2);
      HasUnit(t, i, s, 3);
      HasUnit(t, i, s, 4);
      HasUnit(t, i, s, 5);
      assert HexUnit(t, i + 2) == Some(u);
    }
  }

  lemma {:induction false} UnitsAreDecoded(t: Text, i: nat, units: Text)
    requires Has(t, i, PrintUnits(units))
    ensures Decode(t, i, i + |PrintUnits(units)|) == Some(units)
    decreases |units|
  {
    hide Decode, PrintUnit;
    if units == [] {
      NothingIsDecoded(t, i);
    } else {
      var first, rest := PrintUnit(units[0]), units[1..];
      HasBoth(t, i, first, PrintUnits(rest));
      UnitsAreDecoded(t, i + |first|, rest);
      UnitIsDecoded(t, i, i + |PrintUnits(units)|, units[0]);
      assert [units[0]] + rest == units;
    }
  }

  lemma NothingIsDecoded(t: Text, i: nat)
    requires i <= |t|
    ensures Decode(t, i, i) == Some([])
  {
  }

  lemma StringIsDerived(t: Text, i: nat, units: Text)
    requires Has(t, i, PrintString(units))
    ensures GString(t, i, i + |PrintString(units)|, units)
  {
    hide Decode, PrintUnits;
    HasBoth(t, i, [QUOTE] + PrintUnits(units), [QUOTE]);
    HasUnit(t, i + 1 + |PrintUnits(units)|, [QUOTE], 0);
    HasBoth(t, i, [QUOTE], PrintUnits(units));
    HasUnit(t, i, [QUOTE], 0);
    UnitsAreDecoded(t, i + 1, units);
  }

  /** A number's derivation does not depend on where its lexeme stands. */
  lemma NumberMoves(t: Text, i: nat, u: Text, k: nat, n: nat)
    requires i + n <= |t| && k + n <= |u| && t[i..i + n] == u[k..k + n]
    requires GNumber(t, i, i + n)
    ensures GNumber(u, k, k + n)
  {
    var p, q, r :|
      && (p == i || (p == i + 1 && 0 <= i < |t| && t[i] == MINUS))
      && GInteger(t, p, q) && GFraction(t, q, r) && GExponent(t, r, i + n);
    var d := k - i;
    SameUnits(t, i, u, k, n);
    assert GInteger(u, p + d, q + d) by { DigitsMove(t, i, u, k, n, p + 1, q); }
    assert GFraction(u, q + d, r + d) by { DigitsMove(t, i, u, k, n, q + 1, r); }
    assert GExponent(u, r + d, k + n) by {
      if r < i + n {
        var e :| GSign(t, r + 1, e) && e < i + n && AllDigits(t, e, i + n);
        DigitsMove(t, i, u, k, n, e, i + n);
        assert GSign(u, r + 1 + d, e + d);
      }
    }
  }

  lemma SameUnits(t: Text, i: nat, u: Text, k: nat, n: nat)
    requires i + n <= |t| && k + n <= |u| && t[i..i + n] == u[k..k + n]
    ensures forall x :: i <= x < i + n ==> t[x] == u[x + (k - i)]
  {
    forall x | i <= x < i + n ensures t[x] == u[x + (k - i)] {
      assert t[i..i + n][x - i] == u[k..k + n][x - i];
    }
  }

  lemma DigitsMove(t: Text, i: nat, u: Text, k: nat, n: nat, a: int, b: int)
    requires i + n <= |t| && k + n <= |u| && t[i..i + n] == u[k..k + n]
    requires i <= a && b <= i + n
    ensures AllDigits(t, a, b) ==> AllDigits(u, a + (k - i), b + (k - i))
  {
    SameUnits(t, i, u, k, n);
    var d := k - i;
    if AllDigits(t, a, b) {
      forall x | a + d <= x < b + d ensures IsDigit(u[x]) {
        assert t[x - d] == u[x - d + d];
      }
    }
  }

  /** Wherever a value's print stands, the grammar derives the value from exactly that stretch. */
  lemma {:induction false} PrintIsDerived(t: Text, i: nat, v: Value)
    requires Has(t, i, Print(v)) && Printable(v)
    ensures GValue(t, i, i + |Print(v)|, v)
    decreases v, 1
  {
    hide GNumber, PrintElements, PrintMembers, PrintString, GElements, GMembers, GString;
    match v {
      case Num(lexeme) =>
        NumberMoves(lexeme, 0, t, i, |lexeme|);
        NumberIsSome(lexeme);
      case Str(units) => StringIsDerived(t, i, units); StringHasEnds(t, i, i + |PrintString(units)|, units);
      case Arr(elements) =>
        Bracketed(t, i, OPEN_ARRAY, PrintElements(elements), CLOSE_ARRAY);
        if elements == [] {
          NoElements();
        } else {
          ElementsAreDerived(t, i + 1, elements);
        }
      case Obj(members) =>
        Bracketed(t, i, OPEN_OBJECT, PrintMembers(members), CLOSE_OBJECT);
        if members == [] {
          NoElements();
        } else {
          MembersAreDerived(t, i + 1, members);
        }
      case _ =>
    }
  }

  lemma NumberIsSome(s: Text)
    requires GNumber(s, 0, |s|)
    ensures s != []
  {
  }

  lemma StringHasEnds(t: Text, i: nat, j: nat, units: Text)
    requires GString(t, i, j, units)
    ensures i < j <= |t|
  {
  }

  lemma NoElements()
    ensures PrintElements([]) == [] && PrintMembers([]) == []
  {
  }

  lemma Bracketed(t: Text, i: nat, open: Unit, inside: Text, close: Unit)
    requires Has(t, i, [open] + inside + [close])
    ensures t[i] == open && t[i + 1 + |inside|] == close && Has(t, i + 1, inside)
  {
    HasUnit(t, i, [open] + inside + [close], 0);
    HasUnit(t, i, [open] + inside + [close], 1 + |inside|);
    HasBoth(t, i, [open] + inside, [close]);
    HasBoth(t, i, [open], inside);
  }

  lemma {:induction false} ElementsAreDerived(t: Text, i: nat, elements: seq<Value>)
    requires elements != [] && Has(t, i, PrintElements(elements))
    requires forall e <- elements :: Printable(e)
    ensures GElements(t, i, i + |PrintElements(elements)|, elements)
    decreases elements, 2
  {
    hide Print, GValue;
    var v, rest := elements[0], elements[1..];
    var printed := Print(v);
    if |elements| > 1 {
      HasBoth(t, i, printed, [COMMA] + PrintElements(rest));
      HasBoth(t, i + |printed|, [COMMA], PrintElements(rest));
      HasUnit(t, i + |printed|, [COMMA], 0);
      ElementsAreDerived(t, i + |printed| + 1, rest);
    }
    PrintIsDerived(t, i, v);
    assert GElement(t, i, i, i + |printed|, i + |printed|, elements[0]);
  }

  lemma MemberIsDerived(t: Text, i: nat, m: Member)
    requires Has(t, i, PrintMember(m)) && Printable(m.value)
    ensures var b, e := i + |PrintString(m.name)| + 1, i + |PrintMember(m)|;
      GName(t, i, i, b, m.name) && GElement(t, b, b, e, e, m.value)
    decreases m, 2
  {
    hide Print, PrintString, GValue, GString;
    var name := PrintString(m.name);
    HasBoth(t, i, name, [COLON] + Print(m.value));
    HasBoth(t, i + |name|, [COLON], Print(m.value));
    HasUnit(t, i + |name|, [COLON], 0);
    StringIsDerived(t, i, m.name);
    PrintIsDerived(t, i + |name| + 1, m.value);
    assert AllWs(t, i + |name|, i + |name|);
  }

  lemma {:induction false} MembersAreDerived(t: Text, i: nat, members: seq<Member>)
    requires members != [] && Has(t, i, PrintMembers(members))
    requires forall m <- members :: Printable(m.value)
    ensures GMembers(t, i, i + |PrintMembers(members)|, members)
    decreases members, 3
  {
    hide PrintMember, GName, GElement;
    var m, rest := members[0], members[1..];
    var printed := PrintMember(m);
    if |members| > 1 {
      HasBoth(t, i, printed, [COMMA] + PrintMembers(rest));
      HasBoth(t, i + |printed|, [COMMA], PrintMembers(rest));
      HasUnit(t, i + |printed|, [COMMA], 0);
      MembersAreDerived(t, i + |printed| + 1, rest);
    }
    MemberIsDerived(t, i, m);
    var b, e := i + |PrintString(m.name)| + 1, i + |printed|;
    assert GName(t, i, i, b, members[0].name) && GElement(t, b, b, e, e, members[0].value);
  }

  /** Round trip: every admissible value is read back from its own print, exactly. */
  lemma PrintThenParse(v: Value)
    requires Printable(v) && Admissible(v, 0)
    ensures StrictJson.Parse(Print(v)) == Some(v)
  {
    var t := Print(v);
    assert Has(t, 0, t);
    PrintIsDerived(t, 0, v);
    assert GElement(t, 0, 0, |t|, |t|, v);
    StrictJson.ParseIsExact(t, v);
  }

  lemma {:induction false} DerivedIsPrintable(t: Text, i: nat, j: nat, v: Value)
    requires GValue(t, i, j, v)
    ensures Printable(v)
    decreases v, 0
  {
    hide GNumber, GString, GElements, GMembers;
    match v {
      case Num(lexeme) => NumberMoves(t, i, lexeme, 0, |lexeme|);
      case Arr(elements) =>
        if elements != [] {
          ElementsArePrintable(t, i + 1, j - 1, elements);
        }
      case Obj(members) =>
        if members != [] {
          MembersArePrintable(t, i + 1, j - 1, members);
        }
      case _ =>
    }
  }

  lemma {:induction false} ElementsArePrintable(t: Text, i: nat, j: nat, elements: seq<Value>)
    requires GElements(t, i, j, elements)
    ensures forall e <- elements :: Printable(e)
    decreases elements, 1
  {
    hide GValue;
    var a: nat, b: nat, c: nat :| GElement(t, i, a, b, c, elements[0])
      && if |elements| == 1 then c == j
         else c < j <= |t| && t[c] == COMMA && GElements(t, c + 1, j, elements[1..]);
    DerivedIsPrintable(t, a, b, elements[0]);
    if |elements| > 1 {
      ElementsArePrintable(t, c + 1, j, elements[1..]);
    }
    assert elements == [elements[0]] + elements[1..];
  }

  lemma {:induction false} MembersArePrintable(t: Text, i: nat, j: nat, members: seq<Member>)
    requires GMembers(t, i, j, members)
    ensures forall m <- members :: Printable(m.value)
    decreases members, 1
  {
    hide GValue, GName;
    var a: nat, b: nat, c: nat, d: nat, e: nat :|
      && GName(t, i, a, b, members[0].name) && GElement(t, b, c, d, e, members[0].value)
      && if |members| == 1 then e == j
         else e < j <= |t| && t[e] == COMMA && GMembers(t, e + 1, j, members[1..]);
    DerivedIsPrintable(t, c, d, members[0].value);
    if |members| > 1 {
      MembersArePrintable(t, e + 1, j, members[1..]);
    }
    assert members == [members[0]] + members[1..];
  }

  /** Whatever text was read, printing its value and reading that gives the same value again. */
  lemma ParsePrintParse(t: Text)
    requires StrictJson.Parse(t).Some?
    ensures StrictJson.Parse(Print(StrictJson.Parse(t).value)) == StrictJson.Parse(t)
  {
    hide StrictJson.Parse, Print, GValue, Printable;
    var v := StrictJson.Parse(t).value;
    StrictJson.ParseIsExact(t, v);
    var i: nat, j: nat :| GElement(t, 0, i, j, |t|, v);
    DerivedIsPrintable(t, i, j, v);
    PrintThenParse(v);
  }
}
