/** strictJson as it runs: loops over one shared index. None stands for the thrown error. */
module StrictJsonReader {
  import opened Basics
  import opened JsonGrammar
  import opened StrictJson

  /** `r` with the elements already pushed put in front. */
  function Prepended<T>(done: seq<T>, r: Parsed<seq<T>>): Parsed<seq<T>> {
    if r.Reject? then Reject else At(done + r.value, r.next)
  }

  class Reader {
    const text: Text
    var i: nat

    constructor (text: Text)
      ensures this.text == text && i == 0
    {
      this.text := text;
      i := 0;
    }

    method Ws()
      requires i <= |text|
      modifies this
      ensures i == SkipWs(text, old(i)) && old(i) <= i <= |text|
    {
      while i < |text| && IsWs(text[i])
        invariant old(i) <= i <= |text|
        invariant SkipWs(text, i) == SkipWs(text, old(i))
      {
        i := i + 1;
      }
    }

    method Str() returns (units: Option<Text>)
      requires i < |text|
      modifies this
      ensures var r := ParseString(text, old(i));
        if r.Reject? then units.None? else units == Some(r.value) && i == r.next
      ensures i > old(i)
    {
      var start := i;
      i := i + 1;
      while i < |text|
        invariant start < i
        invariant ScanString(text, i) == ScanString(text, start + 1)
        decreases |text| - i
      {
        if text[i] == BACKSLASH {
          i := i + 2;
          continue;
        }
        i := i + 1;
        if text[i - 1] == QUOTE {
          return Decode(text, start + 1, i - 1);
        }
      }
      return None;
    }

    method Val(depth: nat) returns (v: Option<Value>)
      requires i <= |text|
      modifies this
      ensures var r := ParseValue(text, old(i), depth);
        if r.Reject? then v.None? else v == Some(r.value) && i == r.next
      decreases |text| - i, 1
    {
      hide ParseElements, ParseMembers, ParseLiteral, SkipWs;
      if depth > MAX_DEPTH {
        return None;
      }
      Ws();
      if i < |text| && text[i] == QUOTE {
        var units := Str();
        return if units.Some? then Some(Value.Str(units.value)) else None;
      }
      if i < |text| && text[i] == OPEN_ARRAY {
        i := i + 1;
        Ws();
        if i < |text| && text[i] == CLOSE_ARRAY {
          i := i + 1;
          return Some(Arr([]));
        }
        var elements := Elements(depth);
        return if elements.Some? then Some(Arr(elements.value)) else None;
      }
      if i < |text| && text[i] == OPEN_OBJECT {
        i := i + 1;
        Ws();
        if i < |text| && text[i] == CLOSE_OBJECT {
          i := i + 1;
          return Some(Obj([]));
        }
        var members := Members(depth);
        return if members.Some? then Some(Obj(members.value)) else None;
      }
      var literal := ParseLiteral(text, i);
      if literal.Reject? {
        return None;
      }
      i := literal.next;
      return Some(literal.value);
    }

    /** The array loop. */
    method Elements(depth: nat) returns (out: Option<seq<Value>>)
      requires i <= |text|
      modifies this
      ensures var r := ParseElements(text, old(i), depth);
        if r.Reject? then out.None? else out == Some(r.value) && i == r.next
      decreases |text| - i, 2
    {
      hide ParseValue, SkipWs;
      var done: seq<Value> := [];
      PrependNothing(ParseElements(text, i, depth));
      while true
        invariant old(i) <= i <= |text|
        invariant Prepended(done, ParseElements(text, i, depth)) == ParseElements(text, old(i), depth)
        decreases |text| - i
      {
        ghost var start := i;
        Ws();
        ParseValueSkipsWs(text, start, depth + 1);
        var v := Val(depth + 1);
        if v.None? {
          return None;
        }
        Ws();
        if i == |text| {
          return None;
        }
        var end := text[i];
        i := i + 1;
        if end == CLOSE_ARRAY {
          return Some(done + [v.value]);
        }
        if end != COMMA {
          return None;
        }
        PrependMore(done, [v.value], ParseElements(text, i, depth));
        done := done + [v.value];
      }
    }

    /** The object loop. */
    method Members(depth: nat) returns (out: Option<seq<Member>>)
      requires i <= |text|
      modifies this
      ensures var r := ParseMembers(text, old(i), depth, {});
        if r.Reject? then out.None? else out == Some(r.value) && i == r.next
      decreases |text| - i, 2
    {
      hide ParseValue, SkipWs, ParseName;
      var done: seq<Member>, keys: set<Text> := [], {};
      PrependNothing(ParseMembers(text, i, depth, keys));
      while true
        invariant old(i) <= i <= |text|
        invariant Prepended(done, ParseMembers(text, i, depth, keys)) == ParseMembers(text, old(i), depth, {})
        decreases |text| - i
      {
        var name := Name(keys);
        if name.None? {
          return None;
        }
        var v := Val(depth + 1);
        if v.None? {
          return None;
        }
        Ws();
        if i == |text| {
          return None;
        }
        var end := text[i];
        i := i + 1;
        if end == CLOSE_OBJECT {
          return Some(done + [Member(name.value, v.value)]);
        }
        if end != COMMA {
          return None;
        }
        keys := keys + {name.value};
        PrependMore(done, [Member(name.value, v.value)], ParseMembers(text, i, depth, keys));
        done := done + [Member(name.value, v.value)];
      }
    }

    /** A member's name up to and including its colon. */
    method Name(keys: set<Text>) returns (name: Option<Text>)
      requires i <= |text|
      modifies this
      ensures var r := ParseName(text, old(i), keys);
        if r.Reject? then name.None? else name == Some(r.value) && i == r.next
    {
      hide ParseString;
      Ws();
      if i == |text| || text[i] != QUOTE {
        return None;
      }
      name := Str();
      if name.None? || name.value in keys {
        return None;
      }
      Ws();
      if i == |text| || text[i] != COLON {
        return None;
      }
      i := i + 1;
    }
  }

  lemma PrependNothing<T>(r: Parsed<seq<T>>)
    ensures Prepended([], r) == r
  {
    assert r.At? ==> [] + r.value == r.value;
  }

  lemma PrependMore<T>(done: seq<T>, more: seq<T>, r: Parsed<seq<T>>)
    ensures Prepended(done, Prepended(more, r)) == Prepended(done + more, r)
  {
    assert r.At? ==> done + (more + r.value) == done + more + r.value;
  }

  /** strictJson: one value, then white space, then the end. */
  method ParseText(text: Text) returns (v: Option<Value>)
    ensures v == Parse(text)
    ensures forall w :: v == Some(w) <==> GText(text, w) && Admissible(w, 0)
  {
    hide ParseValue, GText, Admissible;
    var reader := new Reader(text);
    v := reader.Val(0);
    if v.Some? {
      reader.Ws();
      if reader.i != |text| {
        v := None;
      }
    }
    forall w ensures v == Some(w) <==> GText(text, w) && Admissible(w, 0) {
      ParseIsExact(text, w);
    }
  }
}
