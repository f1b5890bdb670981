/**
 * Canonical UTC time texts (a subset of section 5.6 of RFC 3339): the check, the instant a
 * text names, and the current time's text. The same check guards device, server and journal times.
 */
module CanonicalTime {
  import opened Basics
  import opened Decimal
  import opened Gregorian

  /** What the pattern captures; `fraction` is "" when there is none. */
  datatype Fields = Fields(year: nat, month: nat, day: nat, hour: nat, minute: nat, second: nat, fraction: string)

  /** The widths the pattern allows. */
  predicate Captured(f: Fields) {
    && f.year < 10000 && f.month < 100 && f.day < 100
    && f.hour < 100 && f.minute < 100 && f.second < 100
    && |f.fraction| <= 9 && AllDigitChars(f.fraction)
  }

  function Head(f: Fields): (s: string)
    ensures |s| == 19
  {
    Pad(f.year, 4) + "-" + Pad(f.month, 2) + "-" + Pad(f.day, 2) + "T"
    + Pad(f.hour, 2) + ":" + Pad(f.minute, 2) + ":" + Pad(f.second, 2)
  }

  function Tail(fraction: string): string {
    if fraction == "" then "Z" else "." + fraction + "Z"
  }

  function Text(f: Fields): string {
    Head(f) + Tail(f.fraction)
  }

  // ---- The pattern ----

  predicate HeadShape(s: string) {
    && |s| == 19
    && s[4] == '-' && s[7] == '-' && s[10] == 'T' && s[13] == ':' && s[16] == ':'
    && AllDigitChars(s[..4]) && AllDigitChars(s[5..7]) && AllDigitChars(s[8..10])
    && AllDigitChars(s[11..13]) && AllDigitChars(s[14..16]) && AllDigitChars(s[17..])
  }

  function HeadFields(s: string, fraction: string): Fields
    requires HeadShape(s)
  {
    Fields(Value(s[..4]), Value(s[5..7]), Value(s[8..10]), Value(s[11..13]), Value(s[14..16]), Value(s[17..]),
      fraction)
  }

  /** The digits of the tail: "Z", or a point, one to nine digits and "Z". */
  function TailFraction(s: string): Option<string> {
    if s == "Z" then Some("")
    else if 3 <= |s| <= 11 && s[0] == '.' && s[|s| - 1] == 'Z' && AllDigitChars(s[1..|s| - 1])
    then Some(s[1..|s| - 1])
    else None
  }

  function Match(s: string): Option<Fields> {
    if |s| < 19 || !HeadShape(s[..19]) || TailFraction(s[19..]).None? then None
    else Some(HeadFields(s[..19], TailFraction(s[19..]).value))
  }

  // ---- The check ----

  /** The first three fraction digits, padded with zeros. */
  function Milliseconds(fraction: string): nat
    requires AllDigitChars(fraction)
  {
    var padded := if |fraction| < 3 then fraction + Zeros(3 - |fraction|) else fraction;
    Value(padded[..3])
  }

  predicate Check(f: Fields)
    requires Captured(f)
  {
    if f.fraction != "" && f.fraction[|f.fraction| - 1] == '0' then false
    else if f.year < 1 || f.hour > 23 || f.minute > 59 || f.second > 59 then false
    else
      ProbeIsInRange(f.year, f.month - 1, f.day);
      var time := f.hour * 3_600_000 + f.minute * 60_000 + f.second * 1000 + Milliseconds(f.fraction);
      var probe := MakeDay(f.year, f.month - 1, f.day) * MS_PER_DAY + time;
      var day, within := probe / MS_PER_DAY, probe % MS_PER_DAY;
      DayFromYear(f.year - 1) <= day
      && DateOfDay(day, f.year - 1) == Date(f.year, f.month, f.day)
      && within / 3_600_000 == f.hour
      && within / 60_000 % 60 == f.minute
      && within / 1000 % 60 == f.second
  }

  predicate CanonicalDeviceTime(s: string) {
    var f := Match(s);
    f.Some? && Captured(f.value) && Check(f.value)
  }

  /** A real Gregorian date from year 1, no leap second, no trailing zero in the fraction. */
  predicate Genuine(f: Fields) {
    && f.year >= 1
    && RealDate(Date(f.year, f.month, f.day))
    && f.hour <= 23 && f.minute <= 59 && f.second <= 59
    && (f.fraction == "" || f.fraction[|f.fraction| - 1] != '0')
  }

  lemma MillisecondsAreFew(fraction: string)
    requires AllDigitChars(fraction)
    ensures Milliseconds(fraction) < 1000
  {
    var padded := if |fraction| < 3 then fraction + Zeros(3 - |fraction|) else fraction;
    ValueIsPad(padded[..3]);
    Powers();
  }

  lemma ClockReturns(day: int, h: int, mi: int, s: int, ms: int)
    requires 0 <= h <= 23 && 0 <= mi <= 59 && 0 <= s <= 59 && 0 <= ms < 1000
    ensures var t := day * MS_PER_DAY + (h * 3_600_000 + mi * 60_000 + s * 1000 + ms);
      && t / MS_PER_DAY == day
      && t % MS_PER_DAY / 3_600_000 == h
      && t % MS_PER_DAY / 60_000 % 60 == mi
      && t % MS_PER_DAY / 1000 % 60 == s
  {
    var time := h * 3_600_000 + mi * 60_000 + s * 1000 + ms;
    assert 0 <= time < MS_PER_DAY;
    assert time / 60_000 == h * 60 + mi;
    assert time / 1000 == h * 3600 + mi * 60 + s;
  }

  /** Normalise-and-compare accepts exactly the real calendar's times. */
  lemma CheckIsCalendar(f: Fields)
    requires Captured(f)
    ensures Check(f) <==> Genuine(f)
  {
    hide MakeDay, DateOfDay, DayFromYear, RealDate, Milliseconds;
    if f.year >= 1 && f.hour <= 23 && f.minute <= 59 && f.second <= 59 {
      var day := MakeDay(f.year, f.month - 1, f.day);
      MillisecondsAreFew(f.fraction);
      ClockReturns(day, f.hour, f.minute, f.second, Milliseconds(f.fraction));
      ProbeIsInRange(f.year, f.month - 1, f.day);
      NormaliseAndCompare(Date(f.year, f.month, f.day), f.year - 1);
    }
  }

  // ---- The pattern reads back what Text writes ----

  lemma TextMatches(f: Fields)
    requires Captured(f)
    ensures Match(Text(f)) == Some(f)
  {
    var s := Text(f);
    HeadReads(f);
    TailReads(f.fraction);
    assert s[..19] == Head(f) && s[19..] == Tail(f.fraction);
  }

  lemma HeadReads(f: Fields)
    requires Captured(f)
    ensures HeadShape(Head(f)) && HeadFields(Head(f), f.fraction) == f
  {
    hide Pad, Value, Pow10;
    HeadPieces(Pad(f.year, 4), Pad(f.month, 2), Pad(f.day, 2), Pad(f.hour, 2), Pad(f.minute, 2), Pad(f.second, 2));
    Powers();
    PadIsValue(f.year, 4);
    PadIsValue(f.month, 2);
    PadIsValue(f.day, 2);
    PadIsValue(f.hour, 2);
    PadIsValue(f.minute, 2);
    PadIsValue(f.second, 2);
  }

  lemma HeadPieces(y: string, mo: string, d: string, h: string, mi: string, sec: string)
    requires |y| == 4 && |mo| == |d| == |h| == |mi| == |sec| == 2
    ensures var s := y + "-" + mo + "-" + d + "T" + h + ":" + mi + ":" + sec;
      && |s| == 19 && s[4] == '-' && s[7] == '-' && s[10] == 'T' && s[13] == ':' && s[16] == ':'
      && s[..4] == y && s[5..7] == mo && s[8..10] == d && s[11..13] == h && s[14..16] == mi && s[17..] == sec
  {
    var date, time := y + "-" + mo + "-" + d + "T", h + ":" + mi + ":" + sec;
    assert |date| == 11 && date[..4] == y && date[5..7] == mo && date[8..10] == d;
    assert |time| == 8 && time[..2] == h && time[3..5] == mi && time[6..] == sec;
    var s := y + "-" + mo + "-" + d + "T" + h + ":" + mi + ":" + sec;
    assert s == date + time;
    assert s[11..] == time && s[..11] == date;
    assert s[5..7] == date[5..7] && s[8..10] == date[8..10] && s[..4] == date[..4];
    assert s[11..13] == time[..2] && s[14..16] == time[3..5] && s[17..] == time[6..];
  }

  lemma TailReads(fraction: string)
    requires |fraction| <= 9 && AllDigitChars(fraction)
    ensures TailFraction(Tail(fraction)) == Some(fraction)
  {
    var s := Tail(fraction);
    if fraction != "" {
      assert s[1..|s| - 1] == fraction;
    }
  }

  lemma MatchIsText(s: string)
    requires Match(s).Some?
    ensures Captured(Match(s).value) && Text(Match(s).value) == s
  {
    var f := Match(s).value;
    HeadWrites(s[..19], f.fraction);
    TailWrites(s[19..]);
    assert s == s[..19] + s[19..];
  }

  lemma HeadWrites(s: string, fraction: string)
    requires HeadShape(s)
    ensures var f := HeadFields(s, fraction);
      && f.year < 10000 && f.month < 100 && f.day < 100 && f.hour < 100 && f.minute < 100 && f.second < 100
      && Head(f) == s
  {
    hide Pad, Value, Pow10, AllDigitChars;
    Powers();
    ValueIsPad(s[..4]);
    ValueIsPad(s[5..7]);
    ValueIsPad(s[8..10]);
    ValueIsPad(s[11..13]);
    ValueIsPad(s[14..16]);
    ValueIsPad(s[17..]);
    Pieces(s);
  }

  lemma Pieces(s: string)
    requires |s| == 19 && s[4] == '-' && s[7] == '-' && s[10] == 'T' && s[13] == ':' && s[16] == ':'
    ensures s == s[..4] + "-" + s[5..7] + "-" + s[8..10] + "T" + s[11..13] + ":" + s[14..16] + ":" + s[17..]
  {
    assert s == s[..11] + s[11..];
    assert s[..11] == s[..4] + "-" + s[5..7] + "-" + s[8..10] + "T";
    assert s[11..] == s[11..13] + ":" + s[14..16] + ":" + s[17..];
  }

  lemma TailWrites(s: string)
    requires TailFraction(s).Some?
    ensures var fraction := TailFraction(s).value;
      |fraction| <= 9 && AllDigitChars(fraction) && Tail(fraction) == s
  {
    if s != "Z" {
      assert s == "." + s[1..|s| - 1] + "Z";
    }
  }

  /**
   * The check is exact: a text passes if and only if it is the text of a real Gregorian date
   * with year at least 1, a time without leap second and a fraction without trailing zero.
   */
  lemma CanonicalIsExact(s: string)
    ensures CanonicalDeviceTime(s) <==> exists f :: Captured(f) && Genuine(f) && Text(f) == s
  {
    if CanonicalDeviceTime(s) {
      var f := Match(s).value;
      MatchIsText(s);
      CheckIsCalendar(f);
    }
    if f :| Captured(f) && Genuine(f) && Text(f) == s {
      TextMatches(f);
      CheckIsCalendar(f);
    }
  }
}
