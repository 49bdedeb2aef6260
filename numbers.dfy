/** Decimal digit strings and the two `str::parse` instances the decoders rely on:
    `parse::<usize>` (64-bit target) and `parse::<f32>`. */
module Numbers {
  import opened Wrappers

  predicate IsDigit(c: char) {
    '0' <= c <= '9'
  }

  predicate AllDigits(s: string) {
    forall i :: 0 <= i < |s| ==> IsDigit(s[i])
  }

  function DigitValue(c: char): nat
    requires IsDigit(c)
  {
    c as int - '0' as int
  }

  function DigitChar(d: nat): (c: char)
    requires d < 10
    ensures IsDigit(c) && DigitValue(c) == d
  {
    ('0' as int + d) as char
  }

  function Pow10(n: nat): (r: nat)
    ensures r >= 1
  {
    if n == 0 then 1 else 10 * Pow10(n - 1)
  }

  /** The value of a string of decimal digits, most significant digit first. */
  function DigitsValue(s: string): nat
    requires AllDigits(s)
  {
    if s == [] then 0 else 10 * DigitsValue(s[..|s| - 1]) + DigitValue(s[|s| - 1])
  }

  /** The decimal text of `n` without leading zeros, as Rust's `Display` writes an integer. */
  function Digits(n: nat): (s: string)
    ensures AllDigits(s) && |s| >= 1
  {
    if n < 10 then [DigitChar(n)] else Digits(n / 10) + [DigitChar(n % 10)]
  }

  lemma {:induction false} DigitsRoundTrip(n: nat)
    ensures DigitsValue(Digits(n)) == n
  {
    if n >= 10 {
      var s := Digits(n);
      assert s[..|s| - 1] == Digits(n / 10);
      DigitsRoundTrip(n / 10);
    }
  }

  lemma {:induction false} DigitsValueAppend(a: string, b: string)
    requires AllDigits(a) && AllDigits(b)
    ensures AllDigits(a + b)
    ensures DigitsValue(a + b) == DigitsValue(a) * Pow10(|b|) + DigitsValue(b)
  {
    AllDigitsConcat(a, b);
    if b == [] {
      assert a + b == a;
    } else {
      var b' := b[..|b| - 1];
      var d := DigitValue(b[|b| - 1]);
      assert (a + b)[..|a + b| - 1] == a + b';
      assert DigitsValue(a + b) == 10 * DigitsValue(a + b') + d;
      assert DigitsValue(b) == 10 * DigitsValue(b') + d;
      DigitsValueAppend(a, b');
      ShiftByTen(DigitsValue(a), Pow10(|b'|), DigitsValue(b'));
    }
  }

  lemma {:induction false} ShiftByTen(x: nat, p: nat, y: nat)
    ensures 10 * (x * p + y) == x * (10 * p) + 10 * y
  {
  }

  lemma {:induction false} AllDigitsConcat(a: string, b: string)
    requires AllDigits(a) && AllDigits(b)
    ensures AllDigits(a + b)
  {
  }

  // ---------------------------------------------------------------------------
  // `str::parse::<usize>`

  /** 2^64: `usize` is 64 bits wide on the targets the application is built for. */
  const USIZE_LIMIT: nat := 0x1_0000_0000_0000_0000

  /** `s.parse::<usize>()`, with `None` for every `Err`: an optional leading `+`, then one or
      more ASCII digits and nothing else, whose value fits in a `usize`. A `-` is never
      accepted for an unsigned type. */
  function ParseUsize(s: string): (r: Option<nat>)
    ensures r.Some? ==> r.value < USIZE_LIMIT
    ensures r.Some? ==> s != [] && (var d := if s[0] == '+' then s[1..] else s;
                                    d != [] && AllDigits(d) && r.value == DigitsValue(d))
    ensures s != [] && AllDigits(s) && DigitsValue(s) < USIZE_LIMIT ==> r == Some(DigitsValue(s))
  {
    var digits := if s != [] && s[0] == '+' then s[1..] else s;
    if digits == [] || !AllDigits(digits) then None
    else if DigitsValue(digits) < USIZE_LIMIT then Some(DigitsValue(digits))
    else None
  }

  /** Every `usize` survives being written out and parsed back. */
  lemma {:induction false} ParseUsizeRoundTrip(n: nat)
    requires n < USIZE_LIMIT
    ensures ParseUsize(Digits(n)) == Some(n)
  {
    DigitsRoundTrip(n);
  }

  /** A number too large for a `usize` is a parse error (the decoder then panics). */
  lemma {:induction false} ParseUsizeOverflow(n: nat)
    requires n >= USIZE_LIMIT
    ensures ParseUsize(Digits(n)) == None
  {
    DigitsRoundTrip(n);
  }

  // ---------------------------------------------------------------------------
  // `str::parse::<f32>`

  /** A parsed float. The model keeps the exact decimal `mantissa * 10^exponent` that the
      text denotes instead of rounding it to the nearest `f32`. */
  datatype Float = Finite(negative: bool, mantissa: nat, exponent: int) | Infinite(negative: bool) | NaN

  /** Length of the longest prefix of `s` made of ASCII digits. */
  function DigitRun(s: string): (n: nat)
    ensures n <= |s| && AllDigits(s[..n])
    ensures n < |s| ==> !IsDigit(s[n])
  {
    if s == [] || !IsDigit(s[0]) then 0
    else
      var n := 1 + DigitRun(s[1..]);
      assert forall i :: 1 <= i < n ==> s[..n][i] == s[1..][..n - 1][i - 1];
      n
  }

  /** Characters a number may consist of: sign, digits, point, exponent marker, and the
      letters of `inf`, `infinity` and `nan` in either case. */
  predicate FloatChar(c: char) {
    IsDigit(c) || c in ".eE+-" || c in "infatyINFATY"
  }

  /** The count of decimal points in `s`. */
  function Points(s: string): nat {
    multiset(s)['.']
  }

  /** `s` consists of `FloatChar`s and holds at most one point. */
  predicate FloatText(s: string) {
    Points(s) <= 1 && forall i :: 0 <= i < |s| ==> FloatChar(s[i])
  }

  lemma {:induction false} ConcatFloatText(a: string, b: string)
    ensures Points(a + b) == Points(a) + Points(b)
    ensures FloatText(a) && FloatText(b) && Points(a) + Points(b) <= 1 ==> FloatText(a + b)
  {
  }

  lemma {:induction false} DigitsAreFloatText(s: string)
    requires AllDigits(s)
    ensures FloatText(s) && Points(s) == 0
  {
  }

  /** Splitting off the first character, which is a sign or exponent marker. */
  lemma {:induction false} LeadingMarker(s: string)
    requires s != [] && s[0] in "eE+-"
    ensures s == s[..1] + s[1..]
    ensures FloatText(s[..1]) && Points(s[..1]) == 0
  {
  }

  /** The exponent after `e`/`E`: an optional sign, then one or more digits up to the end. */
  function ParseExponent(s: string): Option<int> {
    var negative := s != [] && s[0] == '-';
    var digits := if s != [] && (s[0] == '-' || s[0] == '+') then s[1..] else s;
    if digits == [] || !AllDigits(digits) then None
    else
      var v: int := DigitsValue(digits);
      Some(if negative then -v else v)
  }

  /** What may follow the digits of a number: nothing (exponent 0), or `e`/`E` and an exponent. */
  function ParseExponentPart(tail: string): Option<int> {
    if tail == [] then Some(0)
    else if tail[0] == 'e' || tail[0] == 'E' then ParseExponent(tail[1..])
    else None
  }

  /** The number with integer digits `intPart`, fraction digits `fracPart` and the rest `tail`;
      at least one digit is needed in all. The result `(m, e)` denotes `m * 10^e`. */
  function Assemble(intPart: string, fracPart: string, tail: string): Option<(nat, int)>
    requires AllDigits(intPart) && AllDigits(fracPart)
  {
    if |intPart| + |fracPart| == 0 then None
    else match ParseExponentPart(tail)
      case None => None
      case Some(e) =>
        AllDigitsConcat(intPart, fracPart);
        Some((DigitsValue(intPart + fracPart), e - |fracPart|))
  }

  /** After the integer digits: optionally a point followed by fraction digits. */
  function ParseFraction(intPart: string, rest: string): Option<(nat, int)>
    requires AllDigits(intPart)
  {
    if rest != [] && rest[0] == '.' then
      var afterPoint := rest[1..];
      var m := DigitRun(afterPoint);
      Assemble(intPart, afterPoint[..m], afterPoint[m..])
    else Assemble(intPart, [], rest)
  }

  /** The numeric form the float parser accepts after its sign: digits, optionally a point
      followed by digits, at least one digit in all, then optionally an exponent, and nothing
      else. */
  function ParseDecimal(s: string): Option<(nat, int)> {
    var n := DigitRun(s);
    ParseFraction(s[..n], s[n..])
  }

  function AsciiLowercase(s: string): string {
    seq(|s|, i requires 0 <= i < |s| => if 'A' <= s[i] <= 'Z' then (s[i] as int + 32) as char else s[i])
  }

  /** The special values, matched without regard to ASCII case. */
  function ParseInfNan(s: string, negative: bool): Option<Float> {
    var lower := AsciiLowercase(s);
    if lower == "nan" then Some(NaN)
    else if lower == "inf" || lower == "infinity" then Some(Infinite(negative))
    else None
  }

  /** `s.parse::<f32>()`, with `None` for every `Err`: an optional sign, then a decimal
      number or one of the special values. */
  function ParseFloat(s: string): (r: Option<Float>)
    ensures s == [] ==> r == None
    ensures r.Some? ==> FloatText(s)
  {
    if s == [] then None
    else
      var negative := s[0] == '-';
      var body := if s[0] == '-' || s[0] == '+' then s[1..] else s;
      if body == [] then None
      else match ParseDecimal(body)
        case Some(d) =>
          DecimalShape(body);
          SignedFloatText(s);
          Some(Finite(negative, d.0, d.1))
        case None =>
          var r := ParseInfNan(body, negative);
          if r.None? then r
          else
            InfNanShape(body, negative);
            SignedFloatText(s);
            r
  }

  lemma {:induction false} DigitRunOfDigits(a: string, b: string)
    requires AllDigits(a)
    requires b == [] || !IsDigit(b[0])
    ensures DigitRun(a + b) == |a|
  {
    if a != [] {
      assert (a + b)[1..] == a[1..] + b;
      DigitRunOfDigits(a[1..], b);
    }
  }

  lemma {:induction false} ParseDecimalSplit(a: string, rest: string)
    requires AllDigits(a)
    requires rest == [] || !IsDigit(rest[0])
    ensures ParseDecimal(a + rest) == ParseFraction(a, rest)
  {
    DigitRunOfDigits(a, rest);
    assert (a + rest)[..|a|] == a;
    assert (a + rest)[|a|..] == rest;
  }

  lemma {:induction false} DigitRunAll(s: string)
    requires AllDigits(s)
    ensures DigitRun(s) == |s|
  {
  }

  lemma {:induction false} AssembleNoExponent(ip: string, fp: string)
    requires AllDigits(ip) && AllDigits(fp) && |ip| + |fp| > 0
    ensures AllDigits(ip + fp)
    ensures Assemble(ip, fp, []) == Some((DigitsValue(ip + fp), -|fp|))
  {
  }

  lemma {:induction false} ParseFractionPoint(ip: string, fp: string)
    requires AllDigits(ip) && AllDigits(fp)
    ensures ParseFraction(ip, "." + fp) == Assemble(ip, fp, [])
  {
    var rest := "." + fp;
    assert rest[1..] == fp;
    DigitRunAll(fp);
    assert fp[..|fp|] == fp;
  }

  /** Fixed-point text `ip.fp` (either side may be empty, not both) parses to the decimal
      whose digits are `ip` followed by `fp`, scaled by `10^-|fp|`. */
  lemma {:induction false} FixedPointParses(ip: string, fp: string)
    requires AllDigits(ip) && AllDigits(fp) && |ip| + |fp| > 0
    ensures AllDigits(ip + fp)
    ensures ParseFloat(ip + "." + fp) == Some(Finite(false, DigitsValue(ip + fp), -|fp|))
  {
    var s := ip + "." + fp;
    assert s[0] != '-' && s[0] != '+' by { if ip == [] { assert s[0] == '.'; } else { assert s[0] == ip[0]; } }
    assert s == ip + ("." + fp);
    ParseDecimalSplit(ip, "." + fp);
    ParseFractionPoint(ip, fp);
    AssembleNoExponent(ip, fp);
  }

  /** Plain digits parse to an integer (exponent 0). */
  lemma {:induction false} IntegerParses(ip: string)
    requires AllDigits(ip) && ip != []
    ensures ParseFloat(ip) == Some(Finite(false, DigitsValue(ip), 0))
  {
    assert ip + [] == ip;
    ParseDecimalSplit(ip, []);
    assert ParseFraction(ip, []) == Assemble(ip, [], []);
  }

  // ---------------------------------------------------------------------------
  // What the float parser rejects

  lemma {:induction false} AssembleShape(intPart: string, fracPart: string, tail: string)
    requires AllDigits(intPart) && AllDigits(fracPart)
    requires Assemble(intPart, fracPart, tail).Some?
    ensures FloatText(tail) && Points(tail) == 0
  {
  }

  lemma {:induction false} AfterPointShape(intPart: string, afterPoint: string)
    requires AllDigits(intPart)
    requires Assemble(intPart, afterPoint[..DigitRun(afterPoint)], afterPoint[DigitRun(afterPoint)..]).Some?
    ensures FloatText(afterPoint) && Points(afterPoint) == 0
  {
    var m := DigitRun(afterPoint);
    AssembleShape(intPart, afterPoint[..m], afterPoint[m..]);
    DigitsAreFloatText(afterPoint[..m]);
    assert afterPoint == afterPoint[..m] + afterPoint[m..];
    ConcatFloatText(afterPoint[..m], afterPoint[m..]);
  }

  lemma {:induction false} FractionShape(intPart: string, rest: string)
    requires AllDigits(intPart)
    requires ParseFraction(intPart, rest).Some?
    ensures FloatText(rest)
  {
    if rest != [] && rest[0] == '.' {
      AfterPointShape(intPart, rest[1..]);
      assert rest == rest[..1] + rest[1..] && rest[..1] == ['.'];
      ConcatFloatText(rest[..1], rest[1..]);
    } else {
      AssembleShape(intPart, [], rest);
    }
  }

  lemma {:induction false} DecimalShape(s: string)
    requires ParseDecimal(s).Some?
    ensures FloatText(s)
  {
    var n := DigitRun(s);
    FractionShape(s[..n], s[n..]);
    DigitsAreFloatText(s[..n]);
    assert s == s[..n] + s[n..];
    ConcatFloatText(s[..n], s[n..]);
  }

  lemma {:induction false} InfNanShape(s: string, negative: bool)
    requires ParseInfNan(s, negative).Some?
    ensures FloatText(s) && Points(s) == 0
  {
    var lower := AsciiLowercase(s);
    assert lower == "nan" || lower == "inf" || lower == "infinity";
    assert forall i :: 0 <= i < |lower| ==> lower[i] in "infaty";
    forall i | 0 <= i < |s| ensures s[i] in "infatyINFATY" && s[i] != '.' {
      assert lower[i] in "infaty";
    }
    assert '.' !in s;
  }

  /** A sign in front of number text keeps it number text. */
  lemma {:induction false} SignedFloatText(s: string)
    requires s != [] && FloatText(if s[0] == '-' || s[0] == '+' then s[1..] else s)
    ensures FloatText(s)
  {
    if s[0] == '-' || s[0] == '+' {
      LeadingMarker(s);
      ConcatFloatText(s[..1], s[1..]);
    }
  }

  /** `parse::<f32>` fails on any text with two decimal points, and on any text holding a
      character that is neither part of a decimal number nor a letter of `inf`, `infinity`
      or `nan`. */
  lemma {:induction false} ParseFloatRejects(s: string)
    requires Points(s) >= 2 || exists i :: 0 <= i < |s| && !FloatChar(s[i])
    ensures ParseFloat(s) == None
  {
  }
}
