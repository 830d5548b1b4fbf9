// The command line's two parsers: a duration such as `30s`, `2m` or `1h`
// into seconds, and a quality word into the encoder's rate factor.
//
// Strings are sequences of characters. The source measures lengths in
// UTF-8 bytes and splits off the last byte; for a last character that is
// ASCII this is the same as splitting off the last character, and for any
// other last character the split panics, which is a precondition here.

module Cli {
  import opened Common
  import opened Config

  /** An ASCII decimal digit. */
  predicate IsDigit(c: char)
  {
    '0' <= c <= '9'
  }

  predicate AllDigits(s: string)
  {
    forall i :: 0 <= i < |s| ==> IsDigit(s[i])
  }

  /** The value of a string of decimal digits, most significant first. */
  function DigitsValue(s: string): nat
    requires AllDigits(s)
  {
    if s == [] then 0 else DigitsValue(s[..|s| - 1]) * 10 + (s[|s| - 1] as int - '0' as int)
  }

  /** `str::parse::<u32>`: an optional `+`, then one or more ASCII digits
      whose value fits in 32 bits; anything else is rejected. */
  function ParseU32(s: string): (r: Option<nat>)
    ensures r.Some? ==> r.value < U32_LIMIT
    ensures r.Some? ==> 0 < |s| && (IsDigit(s[0]) || s[0] == '+')
  {
    var digits := if |s| > 0 && s[0] == '+' then s[1..] else s;
    if |digits| == 0 || !AllDigits(digits) then None
    else if DigitsValue(digits) < U32_LIMIT then Some(DigitsValue(digits))
    else None
  }

  /** The shortest decimal rendering of `n`: a reference printer that
      `ParseU32` inverts. */
  function Decimal(n: nat): (s: string)
    ensures |s| > 0 && AllDigits(s)
  {
    var d := ['0' + (n % 10) as char];
    if n < 10 then d else Decimal(n / 10) + d
  }

  lemma {:induction false} DecimalValue(n: nat)
    ensures DigitsValue(Decimal(n)) == n
  {
    var s := Decimal(n);
    if n >= 10 {
      DecimalValue(n / 10);
      assert s[..|s| - 1] == Decimal(n / 10);
    }
  }

  /** Every 32-bit number, printed in decimal with or without a leading
      `+`, parses back to itself. */
  lemma PrintedNumbersParse(n: nat)
    requires n < U32_LIMIT
    ensures ParseU32(Decimal(n)) == Some(n)
    ensures ParseU32("+" + Decimal(n)) == Some(n)
  {
    DecimalValue(n);
    assert ("+" + Decimal(n))[1..] == Decimal(n);
  }

  /** A number too large for 32 bits does not parse. */
  lemma LargeNumbersRejected(n: nat)
    requires n >= U32_LIMIT
    ensures ParseU32(Decimal(n)) == None
  {
    DecimalValue(n);
  }

  /** The last character splits off on a character boundary: `split_at`
      panics when it does not. */
  predicate SplitsCleanly(s: string)
  {
    ParseU32(s).Some? || |s| == 0 || s[|s| - 1] < 128 as char
  }

  function FormatError(s: string): string { "Invalid duration format: " + s }

  function NumberError(numStr: string): string { "Invalid number in duration: " + numStr }

  function UnitError(unit: string): string
  {
    "Invalid duration unit: " + unit + ". Use 's' for seconds, 'm' for minutes, 'h' for hours"
  }

  /** Seconds in one unit of the suffix `unit`, if it is a unit. */
  function UnitSeconds(unit: string): (k: Option<nat>)
    ensures k.Some? <==> unit in {"s", "m", "h"}
  {
    if unit == "s" then Some(1)
    else if unit == "m" then Some(60)
    else if unit == "h" then Some(3600)
    else None
  }

  /** `parse_duration` as written: a bare number is seconds; otherwise the
      last character is the unit and the rest the number; a product past
      32 bits wraps around, as a release build's `u32` multiplication does
      (a debug build panics instead). */
  function ParseDurationAsWritten(s: string): (r: Result<nat, string>)
    requires SplitsCleanly(s)
    ensures r.Ok? ==> r.value < U32_LIMIT
  {
    if ParseU32(s).Some? then Ok(ParseU32(s).value)
    else if |s| < 2 then Err(FormatError(s))
    else
      var numStr, unit := s[..|s| - 1], s[|s| - 1..];
      match ParseU32(numStr)
      case None => Err(NumberError(numStr))
      case Some(num) =>
        match UnitSeconds(unit)
        case None => Err(UnitError(unit))
        case Some(k) => Ok((num * k) % U32_LIMIT)
  }

  /** The report of a duration whose seconds do not fit in 32 bits. */
  function OverflowError(s: string): string { "Duration too large: " + s }

  /** `parse_duration` as its documentation intends it: the same parsing,
      but a duration whose seconds do not fit in 32 bits is an error
      rather than a wrapped value. */
  function ParseDuration(s: string): (r: Result<nat, string>)
    requires SplitsCleanly(s)
    ensures r.Ok? ==> r.value < U32_LIMIT
    ensures ParseU32(s).Some? ==> r == Ok(ParseU32(s).value)
    ensures ParseU32(s).None? && |s| < 2 ==> r == Err(FormatError(s))
    ensures ParseU32(s).None? && |s| >= 2 && ParseU32(s[..|s| - 1]).None? ==> r == Err(NumberError(s[..|s| - 1]))
    ensures ParseU32(s).None? && |s| >= 2 && ParseU32(s[..|s| - 1]).Some? && s[|s| - 1..] !in {"s", "m", "h"} ==>
      r == Err(UnitError(s[|s| - 1..]))
  {
    if ParseU32(s).Some? then Ok(ParseU32(s).value)
    else if |s| < 2 then Err(FormatError(s))
    else
      var numStr, unit := s[..|s| - 1], s[|s| - 1..];
      match ParseU32(numStr)
      case None => Err(NumberError(numStr))
      case Some(num) =>
        match UnitSeconds(unit)
        case None => Err(UnitError(unit))
        case Some(k) => if num * k < U32_LIMIT then Ok(num * k) else Err(OverflowError(s))
  }

  /** A number followed by a unit parses to that many seconds, and to an
      error exactly when the seconds do not fit in 32 bits. */
  lemma DurationRoundTrip(n: nat, unit: string)
    requires n < U32_LIMIT && unit in {"s", "m", "h"}
    ensures SplitsCleanly(Decimal(n) + unit)
    ensures var secs := n * UnitSeconds(unit).value;
      ParseDuration(Decimal(n) + unit) == if secs < U32_LIMIT then Ok(secs) else Err(OverflowError(Decimal(n) + unit))
    ensures ParseDurationAsWritten(Decimal(n) + unit) == Ok((n * UnitSeconds(unit).value) % U32_LIMIT)
  {
    var s := Decimal(n) + unit;
    PrintedNumbersParse(n);
    assert s[..|s| - 1] == Decimal(n);
    assert s[|s| - 1..] == unit;
    assert !IsDigit(s[|s| - 1]);
    assert ParseU32(s).None? by {
      assert s[0] == Decimal(n)[0];
      assert !AllDigits(s);
    }
  }

  /** Where the seconds fit, the two readings agree. */
  lemma AsWrittenAgreesWithoutOverflow(s: string)
    requires SplitsCleanly(s) && ParseDuration(s).Ok?
    ensures ParseDurationAsWritten(s) == ParseDuration(s)
  {
  }

  /** A minute count whose seconds pass 32 bits wraps around as written:
      `71582789m` comes back as 44 seconds instead of being rejected. */
  lemma MinutesWrapAsWritten(n: nat)
    requires n < U32_LIMIT && n * 60 >= U32_LIMIT
    ensures ParseDurationAsWritten(Decimal(n) + "m") == Ok((n * 60) % U32_LIMIT) != Ok(n * 60)
    ensures ParseDuration(Decimal(n) + "m") == Err(OverflowError(Decimal(n) + "m"))
  {
    DurationRoundTrip(n, "m");
  }

  lemma MinutesWrapExample()
    ensures ParseDurationAsWritten(Decimal(71582789) + "m") == Ok(44)
  {
    var n := 71582789;
    assert n * 60 == 4294967340;
    MinutesWrapAsWritten(n);
  }

  /** The ASCII lower case of a character; other characters unchanged. */
  function LowerChar(c: char): char
  {
    if 'A' <= c <= 'Z' then (c as int + 32) as char else c
  }

  function ToLower(s: string): (l: string)
    ensures |l| == |s|
  {
    seq(|s|, i requires 0 <= i < |s| => LowerChar(s[i]))
  }

  lemma ToLowerIdempotent(s: string)
    ensures ToLower(ToLower(s)) == ToLower(s)
  {
  }

  const QUALITY_WORDS: set<string> := {"low", "medium", "high", "ultra"}

  function QualityError(q: string): string
  {
    "Invalid quality preset: " + q + ". Use: low, medium, high, ultra"
  }

  /** `parse_quality`: the case-insensitive quality word as a rate factor,
      from 28 for `low` down to 18 for `ultra`; any other word is rejected
      with a message naming it. */
  function ParseQuality(q: string): (r: Result<byte, string>)
    ensures r.Ok? <==> ToLower(q) in QUALITY_WORDS
    ensures r.Err? ==> r.error == QualityError(q)
    ensures r.Ok? ==> CRF_MIN <= r.value <= CRF_MAX
  {
    var l := ToLower(q);
    if l == "low" then Ok(28)
    else if l == "medium" then Ok(23)
    else if l == "high" then Ok(20)
    else if l == "ultra" then Ok(18)
    else Err(QualityError(q))
  }

  /** The quality word is read without regard to case. */
  lemma QualityIgnoresCase(q: string)
    ensures ParseQuality(q).Ok? ==> ParseQuality(q) == ParseQuality(ToLower(q))
    ensures ParseQuality(q).Ok? <==> ParseQuality(ToLower(q)).Ok?
  {
    ToLowerIdempotent(q);
  }

  /** A better quality word gives a strictly lower rate factor. */
  lemma QualityOrder()
    ensures ParseQuality("ultra").value < ParseQuality("high").value < ParseQuality("medium").value < ParseQuality("low").value
  {
    assert ToLower("ultra") == "ultra";
    assert ToLower("high") == "high";
    assert ToLower("medium") == "medium";
    assert ToLower("low") == "low";
  }

  /** A parsed quality never fails validation: with a positive frame rate
      and duration the configuration it goes into is valid. */
  lemma ParsedQualityValidates(c: CaptureConfig, q: string)
    requires ParseQuality(q).Ok? && c.fps > 0 && c.seconds > 0
    ensures Validate(c.(crf := ParseQuality(q).value)) == Ok(())
  {
    var r := Validate(c.(crf := ParseQuality(q).value));
    var u: () := r.value;
    assert u == ();
  }

  /** The command line's defaults, `10s` and `medium` at 30 frames per
      second, give the default configuration's duration and rate factor. */
  lemma DefaultArgumentsMatchDefaultConfig()
    ensures ParseDuration("10s") == Ok(Default().seconds)
    ensures ParseQuality("medium") == Ok(Default().crf)
  {
    DurationRoundTrip(10, "s");
    assert Decimal(1) == "1";
    assert Decimal(10) == "10";
    assert Decimal(10) + "s" == "10s";
    assert ToLower("medium") == "medium";
  }
}
