/** Fixed-width decimal text and its value. */
module Decimal {

  predicate DigitChar(c: char) {
    '0' <= c <= '9'
  }

  predicate AllDigitChars(s: string) {
    forall i :: 0 <= i < |s| ==> DigitChar(s[i])
  }

  function Pow10(n: nat): (r: nat)
    ensures r >= 1
  {
    if n == 0 then 1 else 10 * Pow10(n - 1)
  }

  function DigitValue(c: char): (r: int)
    requires DigitChar(c)
    ensures 0 <= r < 10 && ('0' as int + r) as char == c
  {
    c as int - '0' as int
  }

  function Value(s: string): (r: nat)
    requires AllDigitChars(s)
  {
    if s == "" then 0 else 10 * Value(s[..|s| - 1]) + DigitValue(s[|s| - 1])
  }

  function Pad(n: nat, width: nat): (s: string)
    ensures |s| == width && AllDigitChars(s)
  {
    if width == 0 then "" else Pad(n / 10, width - 1) + [('0' as int + n % 10) as char]
  }

  /** padEnd with zeros. */
  function Zeros(n: nat): (s: string)
    ensures |s| == n && AllDigitChars(s) && forall i :: 0 <= i < n ==> s[i] == '0'
  {
    if n == 0 then "" else Zeros(n - 1) + "0"
  }

  /** Drops the zeros at the end. */
  function Trim(s: string): (r: string)
    ensures |r| <= |s| && r == s[..|r|]
    ensures r != "" ==> r[|r| - 1] != '0'
    ensures forall k :: |r| <= k < |s| ==> s[k] == '0'
  {
    if s != "" && s[|s| - 1] == '0' then Trim(s[..|s| - 1]) else s
  }

  lemma Powers()
    ensures Pow10(2) == 100 && Pow10(3) == 1000 && Pow10(4) == 10_000 && Pow10(9) == 1_000_000_000
  {
    assert Pow10(5) == 100_000 && Pow10(7) == 10_000_000;
  }

  lemma ValueAppend(s: string, digit: char)
    requires AllDigitChars(s) && DigitChar(digit)
    ensures AllDigitChars(s + [digit]) && Value(s + [digit]) == 10 * Value(s) + DigitValue(digit)
  {
    assert (s + [digit])[..|s|] == s;
  }

  lemma {:induction false} PadIsValue(n: nat, width: nat)
    requires n < Pow10(width)
    ensures Value(Pad(n, width)) == n
  {
    if width > 0 {
      PadIsValue(n / 10, width - 1);
      var digit := ('0' as int + n % 10) as char;
      ValueAppend(Pad(n / 10, width - 1), digit);
    }
  }

  lemma {:induction false} ValueIsPad(s: string)
    requires AllDigitChars(s)
    ensures Value(s) < Pow10(|s|) && Pad(Value(s), |s|) == s
  {
    if s != "" {
      ValueIsPad(s[..|s| - 1]);
      assert s == s[..|s| - 1] + [s[|s| - 1]];
    }
  }

  lemma {:induction false} ZerosScale(s: string, n: nat)
    requires AllDigitChars(s)
    ensures Value(s + Zeros(n)) == Value(s) * Pow10(n)
  {
    if n == 0 {
      assert s + Zeros(0) == s;
    } else {
      ZerosScale(s, n - 1);
      var t := s + Zeros(n);
      assert t[..|t| - 1] == s + Zeros(n - 1);
      assert t[|t| - 1] == '0';
      assert Value(t) == 10 * (Value(s) * Pow10(n - 1));
      Rescale(Value(s), Pow10(n - 1));
    }
  }

  lemma Rescale(a: int, b: int)
    ensures 10 * (a * b) == a * (10 * b)
  {
  }

  /** Trimming and padding back with zeros is the identity. */
  lemma {:induction false} TrimThenZeros(s: string)
    ensures s == Trim(s) + Zeros(|s| - |Trim(s)|)
  {
    if s != "" && s[|s| - 1] == '0' {
      TrimThenZeros(s[..|s| - 1]);
      assert s == s[..|s| - 1] + "0";
    }
  }

  lemma {:induction false} ZerosThenTrim(s: string, n: nat)
    requires s == "" || s[|s| - 1] != '0'
    ensures Trim(s + Zeros(n)) == s
  {
    if n == 0 {
      assert s + Zeros(0) == s;
    } else {
      var t := s + Zeros(n);
      assert t[..|t| - 1] == s + Zeros(n - 1);
      ZerosThenTrim(s, n - 1);
    }
  }

  lemma {:induction false} TrimAfterPrefix(a: string, b: string)
    requires Trim(b) != ""
    ensures Trim(a + b) == a + Trim(b)
  {
    if b[|b| - 1] == '0' {
      assert (a + b)[..|a + b| - 1] == a + b[..|b| - 1];
      TrimAfterPrefix(a, b[..|b| - 1]);
    } else {
      assert Trim(b) == b;
    }
  }
}
