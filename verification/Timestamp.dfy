/**
  Timestamps: the conversion and display of crates/packetcraftr-cli/src/output/frame.rs, the parser of
  crates/packetcraftr-cli/src/command_options/timestamp.rs and `unix_floor` of
  crates/packetcraftr-core/src/frame.rs. An instant is its signed distance from the epoch in nanoseconds.
 */
module Timestamp {
  import opened Wrappers
  import opened Decimal

  const NANOS: nat := 1_000_000_000
  const U64_MAX: nat := 0xFFFF_FFFF_FFFF_FFFF
  const I64_MIN: int := -0x8000_0000_0000_0000
  const I64_MAX: int := 0x7FFF_FFFF_FFFF_FFFF

  type Instant = int

  datatype Timestamp = Timestamp(seconds: int, nanos: nat) {
    ghost predicate Valid() {
      I64_MIN <= seconds <= I64_MAX && nanos < NANOS
    }

    ghost function Value(): Instant {
      seconds * NANOS + nanos
    }
  }

  datatype TimeError = OutOfRange | Invalid | Imprecise

  // ---- Conversion ----

  function FromPreEpoch(before: nat): Result<Timestamp, TimeError> {
    var whole, rest := before / NANOS, before % NANOS;
    var seconds := if rest == 0 then -whole else -whole - 1;
    var nanos := if rest == 0 then 0 else NANOS - rest;
    if I64_MIN <= seconds <= I64_MAX then Ok(Timestamp(seconds, nanos)) else Err(OutOfRange)
  }

  function Convert(t: Instant): Result<Timestamp, TimeError> {
    if t >= 0 then
      if t / NANOS <= I64_MAX then Ok(Timestamp(t / NANOS, t % NANOS)) else Err(OutOfRange)
    else FromPreEpoch(-t)
  }

  function UnixFloor(t: Instant): (int, nat) {
    if t >= 0 then (t / NANOS, t % NANOS)
    else if -t % NANOS == 0 then (-(-t / NANOS), 0)
    else (-(-t / NANOS) - 1, NANOS - -t % NANOS)
  }

  /** A floor is the only pair with that value whose nanoseconds are below a second. */
  lemma {:induction false} FloorIsUnique(seconds: int, nanos: nat, t: Instant)
    requires nanos < NANOS && seconds * NANOS + nanos == t
    ensures UnixFloor(t) == (seconds, nanos)
  {
    FloorIsExact(t);
    var floor := UnixFloor(t).0;
    assert floor < seconds ==> (floor + 1) * NANOS <= seconds * NANOS;
    assert seconds < floor ==> (seconds + 1) * NANOS <= floor * NANOS;
  }

  lemma {:induction false} FloorIsExact(t: Instant)
    ensures UnixFloor(t).0 * NANOS + UnixFloor(t).1 == t && UnixFloor(t).1 < NANOS
  {
  }

  /** The conversion agrees with the floor, on both sides of the epoch, and fails only on its range. */
  lemma {:induction false} ConversionIsFloor(t: Instant)
    ensures Convert(t) == if I64_MIN <= UnixFloor(t).0 <= I64_MAX
                          then Ok(Timestamp(UnixFloor(t).0, UnixFloor(t).1)) else Err(OutOfRange)
    ensures Convert(t).Ok? ==> Convert(t).value.Valid() && Convert(t).value.Value() == t
  {
    FloorIsExact(t);
  }

  ghost predicate Earlier(a: Timestamp, b: Timestamp) {
    a.seconds < b.seconds || (a.seconds == b.seconds && a.nanos < b.nanos)
  }

  /** Comparing the pairs compares the instants. */
  lemma {:induction false} PairOrderIsTimeOrder(a: Instant, b: Instant)
    requires Convert(a).Ok? && Convert(b).Ok?
    ensures a < b <==> Earlier(Convert(a).value, Convert(b).value)
  {
    ConversionIsFloor(a);
    ConversionIsFloor(b);
  }

  // ---- Display ----

  function ShowSigned(n: int): string {
    if n >= 0 then Show(n) else "-" + Show(-n)
  }

  function SaturatingNeg(n: int): int {
    if n == I64_MIN then I64_MAX else -n
  }

  function Display(ts: Timestamp): string {
    if ts.seconds >= 0 || ts.nanos == 0 then ShowSigned(ts.seconds) + "." + Padded(ts.nanos, 9)
    else
      var whole := SaturatingNeg(if ts.seconds == I64_MAX then I64_MAX else ts.seconds + 1);
      "-" + ShowSigned(whole) + "." + Padded(if ts.nanos <= NANOS then NANOS - ts.nanos else 0, 9)
  }

  /** Text in the form of digits, a point and nine digits. */
  ghost predicate IsDecimal(text: string) {
    |text| > 10 && text[|text| - 10] == '.' && AllDigits(text[..|text| - 10]) && AllDigits(text[|text| - 9..])
  }

  /** The nanoseconds such a text says. */
  ghost function Magnitude(text: string): nat
    requires IsDecimal(text)
  {
    Number(text[..|text| - 10]) * NANOS + Number(text[|text| - 9..])
  }

  ghost predicate Says(text: string, t: Instant) {
    || (IsDecimal(text) && Magnitude(text) == t)
    || (text != [] && text[0] == '-' && IsDecimal(text[1..]) && Magnitude(text[1..]) == -t)
  }

  lemma {:induction false} Written(seconds: nat, nanos: nat)
    requires nanos < NANOS
    ensures IsDecimal(Show(seconds) + "." + Padded(nanos, 9))
    ensures Magnitude(Show(seconds) + "." + Padded(nanos, 9)) == seconds * NANOS + nanos
  {
    var text := Show(seconds) + "." + Padded(nanos, 9);
    assert text[..|text| - 10] == Show(seconds) && text[|text| - 9..] == Padded(nanos, 9);
    NumberOfShow(seconds);
    NineDigits();
    NumberOfPadded(nanos, 9);
  }

  lemma {:induction false} NineDigits()
    ensures Power(9) == NANOS
  {
    assert Power(3) == 1000;
    assert Power(6) == 1000 * Power(3);
    assert Power(9) == 1000 * Power(6);
  }

  /** The displayed text is the exact signed decimal of the instant, before the epoch and after. */
  lemma {:induction false} DisplayIsExact(ts: Timestamp)
    requires ts.Valid()
    ensures Says(Display(ts), ts.Value())
  {
    hide IsDecimal, Magnitude, Show, Padded;
    if ts.seconds >= 0 {
      Written(ts.seconds, ts.nanos);
    } else if ts.nanos == 0 {
      SaysNegative(-ts.seconds, 0);
    } else {
      SaysNegative(-ts.seconds - 1, NANOS - ts.nanos);
    }
  }

  lemma {:induction false} SaysNegative(whole: nat, rest: nat)
    requires rest < NANOS
    ensures Says("-" + Show(whole) + "." + Padded(rest, 9), -(whole * NANOS + rest))
  {
    Written(whole, rest);
    var text := Show(whole) + "." + Padded(rest, 9);
    assert "-" + Show(whole) + "." + Padded(rest, 9) == "-" + text;
    assert ("-" + text)[1..] == text;
  }

  /** Different timestamps never display alike. */
  lemma {:induction false} DisplayIsInjective(a: Timestamp, b: Timestamp)
    requires a.Valid() && b.Valid() && Display(a) == Display(b)
    ensures a == b
  {
    DisplayIsExact(a);
    DisplayIsExact(b);
    assert !IsDigit('-');
    FloorIsUnique(a.seconds, a.nanos, a.Value());
    FloorIsUnique(b.seconds, b.nanos, b.Value());
    SaysOneThing(Display(a), a.Value(), b.Value());
  }

  lemma {:induction false} SaysOneThing(text: string, s: Instant, t: Instant)
    requires Says(text, s) && Says(text, t)
    ensures s == t
  {
    if IsDecimal(text) && text[0] == '-' {
      assert text[..|text| - 10][0] == '-';
    }
  }

  // ---- Parsing ----

  /** What the platform's clock can hold: a step in nanoseconds and a last second. */
  datatype Platform = Platform(step: nat, lastSecond: nat) {
    predicate Valid() {
      0 < step
    }
  }

  /** The characters of the Unicode property White_Space, which trimming removes. */
  predicate IsSpace(c: char) {
    || '\t' <= c <= '\r' || c == ' ' || c == '\U{85}' || c == '\U{A0}' || c == '\U{1680}'
    || '\U{2000}' <= c <= '\U{200A}' || c == '\U{2028}' || c == '\U{2029}' || c == '\U{202F}'
    || c == '\U{205F}' || c == '\U{3000}'
  }

  function Trim(s: string): string {
    if s != [] && IsSpace(s[0]) then Trim(s[1..])
    else if s != [] && IsSpace(s[|s| - 1]) then Trim(s[..|s| - 1])
    else s
  }

  ghost predicate AllSpaces(s: string) {
    forall i :: 0 <= i < |s| ==> IsSpace(s[i])
  }

  /** Whatever stands between spaces is what is left of the text. */
  lemma {:induction false} TrimRemoves(lead: string, core: string, tail: string)
    requires AllSpaces(lead) && AllSpaces(tail)
    requires core != [] ==> !IsSpace(core[0]) && !IsSpace(core[|core| - 1])
    ensures Trim(lead + core + tail) == core
    decreases |lead| + |tail|
  {
    var s := lead + core + tail;
    if lead != [] {
      assert s[1..] == lead[1..] + core + tail;
      TrimRemoves(lead[1..], core, tail);
    } else if tail != [] && core != [] {
      assert s[..|s| - 1] == lead + core + tail[..|tail| - 1];
      TrimRemoves(lead, core, tail[..|tail| - 1]);
    } else if tail != [] {
      assert s[1..] == lead + core + tail[1..];
      TrimRemoves(lead, core, tail[1..]);
    } else {
      assert s == core;
    }
  }

  function Scaled(fraction: string): nat
    requires AllDigits(fraction) && |fraction| <= 9
  {
    Number(fraction) * Power(9 - |fraction|)
  }

  function Parse(untrimmed: string, p: Platform): Result<Instant, TimeError>
    requires p.Valid()
  {
    var input := Trim(untrimmed);
    var at := Find(input, '.');
    var seconds := input[..at];
    var fraction := if at < |input| then input[at + 1..] else "";
    if seconds == [] || !AllDigits(seconds) || (at < |input| && fraction == []) || '.' in fraction then Err(Invalid)
    else if Number(seconds) > U64_MAX then Err(Invalid)
    else if |fraction| > 9 || !AllDigits(fraction) then Err(Invalid)
    else if Number(seconds) > p.lastSecond then Err(Invalid)
    else
      var offset := Number(seconds) * NANOS + Scaled(fraction);
      var held := offset - offset % p.step;
      if held != offset then Err(Imprecise) else Ok(held)
  }

  /** Digits, optionally a point and one to nine more. */
  ghost predicate IsForm(text: string, seconds: string, fraction: string) {
    && seconds != [] && AllDigits(seconds) && AllDigits(fraction) && |fraction| <= 9
    && text == if fraction == [] then seconds else seconds + "." + fraction
  }

  lemma {:induction false} NumberJoined(a: string, b: string)
    requires AllDigits(a) && AllDigits(b)
    ensures AllDigits(a + b) && Number(a + b) == Number(a) * Power(|b|) + Number(b)
  {
    if b == [] {
      assert a + b == a;
    } else {
      var front := b[..|b| - 1];
      NumberJoined(a, front);
      assert (a + b)[..|a + b| - 1] == a + front;
      assert Number(a) * Power(|b|) == Number(a) * Power(|front|) * 10;
    }
  }

  lemma {:induction false} PowerSplits(n: nat, m: nat)
    ensures Power(n) * Power(m) == Power(n + m)
  {
    if n > 0 {
      PowerSplits(n - 1, m);
    }
  }

  lemma {:induction false} FindForm(text: string, seconds: string, fraction: string)
    requires IsForm(text, seconds, fraction)
    ensures Trim(text) == text
    ensures fraction == [] ==> Find(text, '.') == |text|
    ensures fraction != [] ==> Find(text, '.') == |seconds| && text[|seconds| + 1..] == fraction
    ensures text[..|seconds|] == seconds
  {
    assert IsDigit(text[0]) && IsDigit(text[|text| - 1]);
    assert forall i :: 0 <= i < |seconds| ==> text[i] == seconds[i] && text[i] != '.';
    assert fraction != [] ==> text[|seconds|] == '.';
    var at := Find(text, '.');
    assert forall i :: 0 <= i < at ==> text[..at][i] != '.';
  }

  /** The scaled fraction stays below a second, and the value read is the decimal that was written. */
  lemma {:induction false} ScaledIsExact(seconds: string, fraction: string)
    requires AllDigits(seconds) && AllDigits(fraction) && |fraction| <= 9
    ensures Scaled(fraction) < NANOS && AllDigits(seconds + fraction)
    ensures (Number(seconds) * NANOS + Scaled(fraction)) * Power(|fraction|) == Number(seconds + fraction) * NANOS
  {
    var f, g, n := Power(|fraction|), Power(9 - |fraction|), Number(fraction);
    NineDigits();
    PowerSplits(|fraction|, 9 - |fraction|);
    NumberBound(fraction);
    NumberJoined(seconds, fraction);
    ScaledArithmetic(Number(seconds), n, f, g);
  }

  lemma {:induction false} ScaledArithmetic(s: nat, n: nat, f: nat, g: nat)
    requires f * g == NANOS && n < f
    ensures n * g < NANOS
    ensures (s * NANOS + n * g) * f == (s * f + n) * NANOS
  {
    assert (n + 1) * g <= f * g;
    assert g == 0 ==> f * g == 0;
    assert n * g * f == n * (f * g);
    assert s * NANOS * f == s * f * NANOS;
  }

  /**
    Every form within the platform's range, with any space around it, is read as the value it says,
    or is refused exactly because the platform cannot hold that value.
   */
  lemma {:induction false} ParseReads(
    lead: string, text: string, tail: string, seconds: string, fraction: string, p: Platform)
    requires p.Valid() && IsForm(text, seconds, fraction) && AllSpaces(lead) && AllSpaces(tail)
    requires Number(seconds) <= U64_MAX && Number(seconds) <= p.lastSecond
    ensures var t := Number(seconds) * NANOS + Scaled(fraction);
      Parse(lead + text + tail, p) == if t % p.step == 0 then Ok(t) else Err(Imprecise)
  {
    FindForm(text, seconds, fraction);
    assert IsDigit(text[0]) && IsDigit(text[|text| - 1]);
    TrimRemoves(lead, text, tail);
    assert '.' !in fraction;
    assert text[..|text|] == text;
  }

  ghost predicate ReadAs(untrimmed: string, seconds: string, fraction: string, p: Platform)
    requires p.Valid()
  {
    && IsForm(Trim(untrimmed), seconds, fraction)
    && Number(seconds) <= U64_MAX && Number(seconds) <= p.lastSecond
    && var t := Number(seconds) * NANOS + Scaled(fraction);
       Parse(untrimmed, p) == if t % p.step == 0 then Ok(t) else Err(Imprecise)
  }

  /** Whatever is not refused as invalid, once trimmed, was such a form. */
  lemma {:induction false} AcceptedIsForm(untrimmed: string, p: Platform)
    requires p.Valid() && Parse(untrimmed, p) != Err(Invalid)
    ensures exists seconds, fraction :: ReadAs(untrimmed, seconds, fraction, p)
  {
    var input := Trim(untrimmed);
    var at := Find(input, '.');
    var seconds := input[..at];
    var fraction := if at < |input| then input[at + 1..] else "";
    assert at == |input| ==> input[..at] == input;
    assert at < |input| ==> input == seconds + "." + fraction;
    assert ReadAs(untrimmed, seconds, fraction, p);
  }

  // ---- The round trip ----

  /**
    Parsing the displayed text gives the instant back exactly when the instant is not before the
    epoch; an earlier one is refused. The platform must be able to hold the instant.
   */
  lemma {:induction false} RoundTrip(t: Instant, p: Platform)
    requires p.Valid() && Convert(t).Ok? && t % p.step == 0 && t / NANOS <= p.lastSecond
    ensures Parse(Display(Convert(t).value), p) == Ok(t) <==> t >= 0
    ensures t < 0 ==> Parse(Display(Convert(t).value), p) == Err(Invalid)
  {
    ConversionIsFloor(t);
    var ts := Convert(t).value;
    if t >= 0 {
      WrittenIsRead(ts.seconds, ts.nanos, p);
    } else {
      EarlierStartsWithMinus(ts);
      NegativeIsRefused(Display(ts), p);
    }
  }

  lemma {:induction false} WrittenIsRead(seconds: nat, nanos: nat, p: Platform)
    requires p.Valid() && nanos < NANOS && seconds <= U64_MAX && seconds <= p.lastSecond
    requires (seconds * NANOS + nanos) % p.step == 0
    ensures Parse(Show(seconds) + "." + Padded(nanos, 9), p) == Ok(seconds * NANOS + nanos)
  {
    hide Parse;
    var whole, fraction := Show(seconds), Padded(nanos, 9);
    NineDigits();
    NumberOfShow(seconds);
    NumberOfPadded(nanos, 9);
    assert Scaled(fraction) == nanos;
    ParseReads("", whole + "." + fraction, "", whole, fraction, p);
    assert "" + (whole + "." + fraction) + "" == whole + "." + fraction;
  }

  lemma {:induction false} EarlierStartsWithMinus(ts: Timestamp)
    requires ts.Valid() && ts.seconds < 0
    ensures |Display(ts)| > 0 && Display(ts)[0] == '-' && IsDigit(Display(ts)[|Display(ts)| - 1])
  {
  }

  lemma {:induction false} NegativeIsRefused(text: string, p: Platform)
    requires p.Valid() && |text| > 0 && text[0] == '-' && IsDigit(text[|text| - 1])
    ensures Parse(text, p) == Err(Invalid)
  {
    assert Trim(text) == text;
    var at := Find(text, '.');
    assert at > 0;
    assert text[..at][0] == '-';
  }
}
