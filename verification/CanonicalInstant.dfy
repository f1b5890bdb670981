/**
 * Canonical texts and instants determine each other, and the text made for the current time
 * is canonical and names the same millisecond.
 */
module CanonicalInstant {
  import opened Basics
  import opened Decimal
  import opened Gregorian
  import opened CanonicalTime

  const NANOS_PER_SECOND := 1_000_000_000
  const SECONDS_PER_DAY := 86_400

  /** Nanoseconds since the epoch. */
  function Instant(f: Fields): int
    requires Captured(f)
  {
    SecondOf(f) * NANOS_PER_SECOND + NanosOf(f.fraction)
  }

  function SecondOf(f: Fields): int {
    MakeDay(f.year, f.month - 1, f.day) * SECONDS_PER_DAY + f.hour * 3600 + f.minute * 60 + f.second
  }

  function NanosOf(fraction: string): int
    requires |fraction| <= 9 && AllDigitChars(fraction)
  {
    Value(fraction) * Pow10(9 - |fraction|)
  }

  /** From the first moment of year 1 to the last of year 9999. */
  predicate InSpan(n: int) {
    DayFromYear(1) <= n / NANOS_PER_SECOND / SECONDS_PER_DAY < DayFromYear(10000)
  }

  function FieldsOf(n: int): Fields
    requires InSpan(n)
  {
    var second, nanos := n / NANOS_PER_SECOND, n % NANOS_PER_SECOND;
    var clock := second % SECONDS_PER_DAY;
    var date := DateOfDay(second / SECONDS_PER_DAY, 1);
    DayHasRealDate(second / SECONDS_PER_DAY, 1);
    Fields(date.year, date.month, date.day, clock / 3600, clock / 60 % 60, clock % 60, Trim(Pad(nanos, 9)))
  }

  lemma FractionReturns(fraction: string)
    requires |fraction| <= 9 && AllDigitChars(fraction)
    requires fraction == "" || fraction[|fraction| - 1] != '0'
    ensures 0 <= NanosOf(fraction) < NANOS_PER_SECOND
    ensures Trim(Pad(NanosOf(fraction), 9)) == fraction
  {
    var padded := fraction + Zeros(9 - |fraction|);
    assert AllDigitChars(padded);
    hide Value, Pad, Zeros, Trim, Pow10, AllDigitChars;
    Powers();
    ZerosScale(fraction, 9 - |fraction|);
    ValueIsPad(padded);
    ZerosThenTrim(fraction, 9 - |fraction|);
  }

  lemma NanosReturn(nanos: int)
    requires 0 <= nanos < NANOS_PER_SECOND
    ensures AllDigitChars(Trim(Pad(nanos, 9))) && NanosOf(Trim(Pad(nanos, 9))) == nanos
  {
    var padded := Pad(nanos, 9);
    var fraction := Trim(padded);
    Powers();
    PadIsValue(nanos, 9);
    TrimThenZeros(padded);
    ZerosScale(fraction, 9 - |fraction|);
  }

  lemma DayInSpan(d: Date)
    requires RealDate(d)
    ensures var day := MakeDay(d.year, d.month - 1, d.day);
      1 <= d.year < 10000 <==> DayFromYear(1) <= day < DayFromYear(10000)
  {
    YearContains(d);
    YearLength(1);
    YearLength(10000);
    if d.year < 1 {
      YearsGrow(d.year, 1);
    } else if d.year > 1 {
      YearsGrow(1, d.year);
    }
    if d.year < 10000 {
      YearsGrow(d.year, 10000);
    } else if d.year > 10000 {
      YearsGrow(10000, d.year);
    }
  }

  lemma YearContains(d: Date)
    requires RealDate(d)
    ensures DayFromYear(d.year) <= MakeDay(d.year, d.month - 1, d.day) < DayFromYear(d.year + 1)
  {
    hide DayFromYear, Leap, MakeDay;
    MakeDayInRange(d.year, d.month, d.day);
    MonthLength(d.year, d.month);
    YearLength(d.year);
  }

  lemma SecondSplits(day: int, h: int, mi: int, s: int)
    requires 0 <= h <= 23 && 0 <= mi <= 59 && 0 <= s <= 59
    ensures var t := day * SECONDS_PER_DAY + h * 3600 + mi * 60 + s;
      && t / SECONDS_PER_DAY == day
      && t % SECONDS_PER_DAY / 3600 == h && t % SECONDS_PER_DAY / 60 % 60 == mi && t % SECONDS_PER_DAY % 60 == s
  {
    var clock := h * 3600 + mi * 60 + s;
    assert 0 <= clock < SECONDS_PER_DAY;
    assert clock / 60 == h * 60 + mi;
  }

  /** The instant of a genuine text gives the text's fields back. */
  lemma InstantThenFields(f: Fields)
    requires Captured(f) && Genuine(f)
    ensures InSpan(Instant(f)) && FieldsOf(Instant(f)) == f
  {
    hide MakeDay, DayFromYear, DateOfDay, NanosOf, Trim, Pad;
    var day := MakeDay(f.year, f.month - 1, f.day);
    FractionReturns(f.fraction);
    SecondSplits(day, f.hour, f.minute, f.second);
    assert Instant(f) / NANOS_PER_SECOND == SecondOf(f) && Instant(f) % NANOS_PER_SECOND == NanosOf(f.fraction);
    DayInSpan(Date(f.year, f.month, f.day));
    RealDateReturns(Date(f.year, f.month, f.day), 1);
  }

  /** Every instant of the span has a genuine text, and that text names it. */
  lemma FieldsThenInstant(n: int)
    requires InSpan(n)
    ensures Captured(FieldsOf(n)) && Genuine(FieldsOf(n)) && Instant(FieldsOf(n)) == n
  {
    hide MakeDay, DayFromYear, DateOfDay, NanosOf, Trim, Pad;
    var f := FieldsOf(n);
    var second := n / NANOS_PER_SECOND;
    var day, clock := second / SECONDS_PER_DAY, second % SECONDS_PER_DAY;
    DayHasRealDate(day, 1);
    DayInSpan(DateOfDay(day, 1));
    NanosReturn(n % NANOS_PER_SECOND);
    assert clock == clock / 3600 * 3600 + clock / 60 % 60 * 60 + clock % 60;
    assert SecondOf(f) == second;
  }

  /** Two canonical times are the same instant only when their texts are the same. */
  lemma CanonicalTextsAreInstants(f: Fields, g: Fields)
    requires Captured(f) && Genuine(f) && Captured(g) && Genuine(g)
    ensures Instant(f) == Instant(g) <==> Text(f) == Text(g)
  {
    InstantThenFields(f);
    InstantThenFields(g);
    TextMatches(f);
    TextMatches(g);
  }

  // ---- The current time ----

  /** A year that has begun by the given day. */
  function Earlier(day: int): (from: int)
    ensures DayFromYear(from) <= day
  {
    if day >= DayFromYear(0) then 0 else day
  }

  function UtcDate(ms: int): Date {
    DateOfDay(ms / MS_PER_DAY, Earlier(ms / MS_PER_DAY))
  }

  /** Four digits, or a sign and six. */
  function YearText(y: int): string {
    if 0 <= y < 10000 then Pad(y, 4) else [if y < 0 then '-' else '+'] + Pad(if y < 0 then -y else y, 6)
  }

  /** Date.prototype.toISOString. */
  function ToIsoString(ms: int): string {
    var date, clock := UtcDate(ms), ms % MS_PER_DAY;
    DayHasRealDate(ms / MS_PER_DAY, Earlier(ms / MS_PER_DAY));
    YearText(date.year) + "-" + Pad(date.month, 2) + "-" + Pad(date.day, 2) + "T"
    + Pad(clock / 3_600_000, 2) + ":" + Pad(clock / 60_000 % 60, 2) + ":" + Pad(clock / 1000 % 60, 2)
    + ("." + Pad(clock % 1000, 3) + "Z")
  }

  /** replace(/\.000Z$/, "Z"). */
  function DropZeroMilliseconds(s: string): string {
    if |s| >= 5 && s[|s| - 5..] == ".000Z" then s[..|s| - 5] + "Z" else s
  }

  /** A point with only digits after it ends `s`. */
  predicate DigitsAfterPoint(s: string) {
    s != "" && (s[|s| - 1] == '.' || (DigitChar(s[|s| - 1]) && DigitsAfterPoint(s[..|s| - 1])))
  }

  /** replace(/(\.\d*?[1-9])0+Z$/, "$1Z"): trailing zeros go when a digit remains after the point. */
  function DropTrailingZeros(s: string): string {
    if s == "" || s[|s| - 1] != 'Z' then s
    else
      var kept := Trim(s[..|s| - 1]);
      if |kept| < |s| - 1 && kept != "" && kept[|kept| - 1] != '.' && DigitsAfterPoint(kept) then kept + "Z" else s
  }

  function CanonicalDeviceNow(ms: int): string {
    DropTrailingZeros(DropZeroMilliseconds(ToIsoString(ms)))
  }

  /** The fields of a millisecond time value in years 0 to 9999. */
  function NowFields(ms: int): Fields
    requires 0 <= UtcDate(ms).year
  {
    var date, clock := UtcDate(ms), ms % MS_PER_DAY;
    DayHasRealDate(ms / MS_PER_DAY, Earlier(ms / MS_PER_DAY));
    Fields(date.year, date.month, date.day, clock / 3_600_000, clock / 60_000 % 60, clock / 1000 % 60,
      Trim(Pad(clock % 1000, 3)))
  }

  lemma TrimOfZeros(s: string, n: nat)
    ensures Trim(s + Zeros(n)) == Trim(s)
    decreases n
  {
    if n == 0 {
      assert s + Zeros(0) == s;
    } else {
      assert (s + Zeros(n))[..|s| + n - 1] == s + Zeros(n - 1);
      TrimOfZeros(s, n - 1);
    }
  }

  /** Milliseconds written with three digits and nanoseconds written with nine trim alike. */
  lemma SameFraction(ms: int)
    requires 0 <= ms < 1000
    ensures Trim(Pad(ms * 1_000_000, 9)) == Trim(Pad(ms, 3))
  {
    var padded := Pad(ms, 3);
    Powers();
    assert Pow10(6) == 1_000_000 by { assert Pow10(4) == 10_000; }
    PadIsValue(ms, 3);
    ZerosScale(padded, 6);
    ValueIsPad(padded + Zeros(6));
    TrimOfZeros(padded, 6);
  }

  lemma {:induction false} PointIsInside(s: string)
    ensures DigitsAfterPoint(s) ==> '.' in s
  {
    if s != "" && s[|s| - 1] != '.' {
      PointIsInside(s[..|s| - 1]);
    }
  }

  lemma {:induction false} DigitsFollowPoint(head: string, digits: string)
    requires AllDigitChars(digits)
    ensures DigitsAfterPoint(head + "." + digits)
  {
    var s := head + "." + digits;
    if digits != "" {
      assert s[..|s| - 1] == head + "." + digits[..|digits| - 1];
      DigitsFollowPoint(head, digits[..|digits| - 1]);
    }
  }

  lemma HeadHasNoPoint(f: Fields)
    ensures forall i :: 0 <= i < 19 ==> Head(f)[i] != '.'
  {
    var a, b := Pad(f.year, 4) + "-" + Pad(f.month, 2) + "-" + Pad(f.day, 2) + "T",
      Pad(f.hour, 2) + ":" + Pad(f.minute, 2) + ":" + Pad(f.second, 2);
    assert Head(f) == a + b;
    assert forall i :: 0 <= i < |a| ==> a[i] != '.';
    assert forall i :: 0 <= i < |b| ==> b[i] != '.';
  }

  /** The two replacements turn a three-digit fraction into a canonical tail. */
  lemma TailIsTrimmed(head: string, digits: string)
    requires |digits| == 3 && AllDigitChars(digits) && '.' !in head
    ensures DropTrailingZeros(DropZeroMilliseconds(head + ("." + digits + "Z"))) == head + Tail(Trim(digits))
  {
    hide DropTrailingZeros, DropZeroMilliseconds, Trim;
    ZeroMillisecondsDrop(head, digits);
    if digits == "000" {
      ThreeZerosTrim();
      HeadKeepsZeros(head);
    } else {
      FractionIsTrimmed(head, digits);
    }
  }

  lemma ZeroMillisecondsDrop(head: string, digits: string)
    requires |digits| == 3
    ensures DropZeroMilliseconds(head + ("." + digits + "Z")) ==
      if digits == "000" then head + "Z" else head + ("." + digits + "Z")
  {
    var tail := "." + digits + "Z";
    var iso := head + tail;
    assert iso[|iso| - 5..] == tail && iso[..|iso| - 5] == head;
    assert tail[1..4] == digits && ".000Z"[1..4] == "000";
    assert digits == "000" ==> tail == ".000Z";
  }

  lemma ThreeZerosTrim()
    ensures Trim("000") == ""
  {
    hide Trim;
    TrimOfZeros("", 3);
    assert Zeros(2) == "00" && Zeros(3) == "000" && "" + Zeros(3) == Zeros(3);
    TrimOfNothing();
  }

  lemma TrimOfNothing()
    ensures Trim("") == ""
  {
  }

  lemma FractionIsTrimmed(head: string, digits: string)
    requires |digits| == 3 && AllDigitChars(digits) && digits != "000"
    ensures DropTrailingZeros(head + ("." + digits + "Z")) == head + Tail(Trim(digits))
  {
    hide Trim, DigitsAfterPoint, DropTrailingZeros, AllDigitChars;
    var kept := Trim(digits);
    SomeDigitStays(digits);
    TrimAfterPrefix(head + ".", digits);
    DigitsFollowPoint(head, kept);
    DropsWhatIsTrimmed(head + "." + digits, head + "." + kept);
    Regroup(head, digits);
    Regroup(head, kept);
  }

  lemma SomeDigitStays(digits: string)
    requires |digits| == 3 && digits != "000"
    ensures Trim(digits) != ""
    ensures AllDigitChars(digits) ==> AllDigitChars(Trim(digits)) && Trim(digits)[|Trim(digits)| - 1] != '.'
  {
    assert forall k :: |Trim(digits)| <= k < 3 ==> digits[k] == '0';
    assert digits == [digits[0], digits[1], digits[2]];
  }

  lemma Regroup(head: string, digits: string)
    ensures head + "." + digits + "Z" == head + ("." + digits + "Z")
    ensures digits != "" ==> (head + "." + digits)[|head + "." + digits| - 1] == digits[|digits| - 1]
  {
  }

  lemma DropsWhatIsTrimmed(body: string, kept: string)
    requires Trim(body) == kept && kept != "" && DigitsAfterPoint(kept) && kept[|kept| - 1] != '.'
    ensures DropTrailingZeros(body + "Z") == kept + "Z"
  {
    hide Trim, DigitsAfterPoint;
    var s := body + "Z";
    assert s[..|s| - 1] == body;
    if |kept| == |body| {
      assert kept == body;
    }
  }

  lemma HeadKeepsZeros(head: string)
    requires '.' !in head
    ensures DropTrailingZeros(head + "Z") == head + "Z"
  {
    var s := head + "Z";
    assert s[..|s| - 1] == head;
    PointIsInside(Trim(head));
    assert forall i :: 0 <= i < |Trim(head)| ==> Trim(head)[i] == head[i];
  }

  /** For years 0 to 9999 the current time's text is the text of its fields. */
  lemma NowIsText(ms: int)
    requires 0 <= UtcDate(ms).year < 10000
    ensures Captured(NowFields(ms)) && CanonicalDeviceNow(ms) == Text(NowFields(ms))
  {
    hide MakeDay, DayFromYear, DateOfDay, Head, Trim, Pad, DropTrailingZeros, DropZeroMilliseconds;
    var f := NowFields(ms);
    var digits := Pad(ms % MS_PER_DAY % 1000, 3);
    DayHasRealDate(ms / MS_PER_DAY, Earlier(ms / MS_PER_DAY));
    HeadHasNoPoint(f);
    TailIsTrimmed(Head(f), digits);
    IsoIsHead(ms);
  }

  lemma IsoIsHead(ms: int)
    requires 0 <= UtcDate(ms).year < 10000
    ensures ToIsoString(ms) == Head(NowFields(ms)) + ("." + Pad(ms % MS_PER_DAY % 1000, 3) + "Z")
  {
    hide MakeDay, DayFromYear, DateOfDay, Pad;
  }

  lemma SignStays(ms: int)
    requires !(0 <= UtcDate(ms).year < 10000)
    ensures CanonicalDeviceNow(ms) != "" && !DigitChar(CanonicalDeviceNow(ms)[0])
  {
    hide MakeDay, DayFromYear, DateOfDay, Pad;
    var iso := ToIsoString(ms);
    assert iso[0] == YearText(UtcDate(ms).year)[0];
    var dropped := DropZeroMilliseconds(iso);
    assert |dropped| > 5 && dropped[0] == iso[0];
    FirstStays(dropped);
  }

  lemma FirstStays(s: string)
    requires s != ""
    ensures DropTrailingZeros(s) != "" && DropTrailingZeros(s)[0] == s[0]
  {
  }

  lemma NowNamesTheMillisecond(ms: int)
    requires 1 <= UtcDate(ms).year < 10000
    ensures Captured(NowFields(ms)) && Genuine(NowFields(ms)) && Instant(NowFields(ms)) == ms * 1_000_000
  {
    hide MakeDay, DayFromYear, DateOfDay, Trim, Pad, NanosOf, RealDate;
    var f, day, clock := NowFields(ms), ms / MS_PER_DAY, ms % MS_PER_DAY;
    DayHasRealDate(day, Earlier(day));
    NowIsText(ms);
    ClockSplits(clock);
    NowFraction(ms);
    assert SecondOf(f) == day * SECONDS_PER_DAY + clock / 1000;
    NanosAdd(day, clock);
  }

  lemma NowFraction(ms: int)
    requires 0 <= UtcDate(ms).year
    ensures var fraction := NowFields(ms).fraction;
      && |fraction| <= 9 && AllDigitChars(fraction)
      && (fraction == "" || fraction[|fraction| - 1] != '0')
      && NanosOf(fraction) == ms % MS_PER_DAY % 1000 * 1_000_000
  {
    hide MakeDay, DayFromYear, DateOfDay, NanosOf;
    SameFraction(ms % MS_PER_DAY % 1000);
    NanosReturn(ms % MS_PER_DAY % 1000 * 1_000_000);
  }

  lemma NanosAdd(day: int, clock: int)
    ensures (day * SECONDS_PER_DAY + clock / 1000) * NANOS_PER_SECOND + clock % 1000 * 1_000_000
      == (day * MS_PER_DAY + clock) * 1_000_000
  {
  }

  lemma ClockSplits(clock: int)
    requires 0 <= clock < MS_PER_DAY
    ensures clock / 3_600_000 * 3600 + clock / 60_000 % 60 * 60 + clock / 1000 % 60 == clock / 1000
    ensures 0 <= clock / 3_600_000 <= 23
    ensures clock / 1000 * 1000 + clock % 1000 == clock
  {
    assert clock / 60_000 == clock / 1000 / 60;
    assert clock / 3_600_000 == clock / 1000 / 3600;
    assert clock / 1000 / 60 / 60 == clock / 1000 / 3600;
  }

  /**
   * The text made for the current time is canonical exactly in years 1 to 9999, and then it
   * names the very millisecond it was made from.
   */
  lemma NowIsCanonical(ms: int)
    ensures CanonicalDeviceTime(CanonicalDeviceNow(ms)) <==> 1 <= UtcDate(ms).year < 10000
    ensures CanonicalDeviceTime(CanonicalDeviceNow(ms)) ==>
      var f := Match(CanonicalDeviceNow(ms)).value; Captured(f) && Instant(f) == ms * 1_000_000
  {
    hide MakeDay, DayFromYear, DateOfDay, Check, Text, ToIsoString, CanonicalDeviceNow, NowFields, Instant;
    var s := CanonicalDeviceNow(ms);
    if 0 <= UtcDate(ms).year < 10000 {
      NowIsText(ms);
      TextMatches(NowFields(ms));
      CheckIsCalendar(NowFields(ms));
      NowYear(ms);
      if UtcDate(ms).year >= 1 {
        NowNamesTheMillisecond(ms);
      }
    } else {
      SignStays(ms);
    }
  }

  lemma NowYear(ms: int)
    requires 0 <= UtcDate(ms).year
    ensures NowFields(ms).year == UtcDate(ms).year
  {
  }
}
