/** The pieces of the Java runtime that the spreadsheet's code leans on:
    character classes, `String.trim`, `replaceAll("\\s", "")`,
    `Integer.parseInt`, the set of strings `Double.parseDouble` accepts,
    the value of a run of digits and dots, and a model of `double`. */
module JavaLang {
  import opened Common

  // ---------------------------------------------------------------- ints

  const INT_MIN: int := -0x8000_0000
  const INT_MAX: int := 0x7fff_ffff

  predicate IsInt32(n: int) { INT_MIN <= n <= INT_MAX }

  /** Two's-complement wrap-around of a Java `int` computation. */
  function Wrap32(n: int): (r: int)
    ensures IsInt32(r)
    ensures (r - n) % 0x1_0000_0000 == 0
    ensures IsInt32(n) ==> r == n
  {
    var m := n % 0x1_0000_0000;
    if m <= INT_MAX then m else m - 0x1_0000_0000
  }

  // ---------------------------------------------------------- characters

  predicate IsAsciiDigit(c: char) { '0' <= c <= '9' }
  predicate IsUpper(c: char) { 'A' <= c <= 'Z' }
  predicate IsLower(c: char) { 'a' <= c <= 'z' }
  predicate IsAsciiLetter(c: char) { IsUpper(c) || IsLower(c) }
  predicate IsHexDigit(c: char) { IsAsciiDigit(c) || 'a' <= c <= 'f' || 'A' <= c <= 'F' }

  function DigitValue(c: char): (d: nat)
    requires IsAsciiDigit(c)
    ensures d < 10
  {
    c as int - '0' as int
  }

  /** The character class `\s` of java.util.regex. */
  predicate IsRegexSpace(c: char) {
    c == ' ' || c == '\t' || c == '\n' || c == '\U{000B}' || c == '\U{000C}' || c == '\r'
  }

  /** What `String.trim` strips: every character up to U+0020. */
  predicate IsTrimmable(c: char) { c <= ' ' }

  /** The line terminators that `.` of java.util.regex does not match. */
  predicate IsLineTerminator(c: char) {
    c == '\n' || c == '\r' || c == '\U{0085}' || c == '\U{2028}' || c == '\U{2029}'
  }

  predicate AllDigits(s: string) { forall k :: 0 <= k < |s| ==> IsAsciiDigit(s[k]) }

  predicate StartsWith(s: string, p: string) { |p| <= |s| && s[..|p|] == p }

  lemma StartsWithChar(s: string, c: char)
    ensures StartsWith(s, [c]) <==> s != [] && s[0] == c
  {
    if s != [] && s[0] == c {
      assert s[..1] == [c];
    }
  }

  // ------------------------------------------------------------- strings

  function TrimLeft(s: string): (t: string)
    ensures |t| <= |s| && t == s[|s| - |t|..]
    ensures t == [] || !IsTrimmable(t[0])
    ensures forall k :: 0 <= k < |s| - |t| ==> IsTrimmable(s[k])
  {
    if s != [] && IsTrimmable(s[0]) then TrimLeft(s[1..]) else s
  }

  function TrimRight(s: string): (t: string)
    ensures |t| <= |s| && t == s[..|t|]
    ensures t == [] || !IsTrimmable(t[|t| - 1])
    ensures forall k :: |t| <= k < |s| ==> IsTrimmable(s[k])
  {
    if s != [] && IsTrimmable(s[|s| - 1]) then TrimRight(s[..|s| - 1]) else s
  }

  /** `String.trim()`: the longest middle part without a trimmable first or
      last character, obtained by dropping only trimmable characters. */
  function Trim(s: string): (t: string)
    ensures t == [] || (!IsTrimmable(t[0]) && !IsTrimmable(t[|t| - 1]))
    ensures |t| <= |s|
    ensures s != [] && !IsTrimmable(s[0]) ==> t != [] && t[0] == s[0]
    ensures t == [] <==> forall k :: 0 <= k < |s| ==> IsTrimmable(s[k])
  {
    var r := TrimRight(s);
    var t := TrimLeft(r);
    assert s != [] && !IsTrimmable(s[0]) ==> r != [] && r[0] == s[0];
    assert t == [] ==> forall k :: 0 <= k < |s| ==> IsTrimmable(s[k]) by {
      if t == [] {
        forall k | 0 <= k < |s| ensures IsTrimmable(s[k]) {
          if k >= |r| { } else { assert r[k] == s[k]; }
        }
      }
    }
    t
  }

  /** A text whose ends are not trimmable is its own trim. */
  lemma TrimOfUntrimmed(s: string)
    requires s != [] && !IsTrimmable(s[0]) && !IsTrimmable(s[|s| - 1])
    ensures Trim(s) == s
  {
    assert TrimRight(s) == s;
    assert TrimLeft(s) == s;
  }

  /** `replaceAll("\\s", "")`. */
  function RemoveWhitespace(s: string): (t: string)
    ensures |t| <= |s|
    ensures forall k :: 0 <= k < |t| ==> !IsRegexSpace(t[k])
    ensures (forall k :: 0 <= k < |s| ==> !IsRegexSpace(s[k])) ==> t == s
  {
    if s == [] then []
    else if IsRegexSpace(s[0]) then RemoveWhitespace(s[1..])
    else [s[0]] + RemoveWhitespace(s[1..])
  }

  // ----------------------------------------------------------- numbers

  /** Decimal value of a string of ASCII digits, most significant first. */
  function DigitsValue(s: string): (n: nat)
    requires AllDigits(s)
    ensures n < Pow10(|s|)
  {
    if s == [] then 0 else DigitsValue(s[..|s| - 1]) * 10 + DigitValue(s[|s| - 1])
  }

  function Pow10(k: nat): (p: nat)
    ensures p >= 1
  {
    if k == 0 then 1 else 10 * Pow10(k - 1)
  }

  /** `Integer.parseInt(s)` over ASCII digits: an optional sign, at least one
      digit, and a value that fits a Java `int`; `None` is the
      NumberFormatException. */
  function ParseInt(s: string): (r: Option<int>)
    ensures r.Some? ==> IsInt32(r.value)
    ensures r.Some? ==> s != [] && AllDigits(if s[0] == '-' || s[0] == '+' then s[1..] else s)
  {
    if s == [] then None
    else
      var neg := s[0] == '-';
      var body := if s[0] == '-' || s[0] == '+' then s[1..] else s;
      if body == [] || !AllDigits(body) then None
      else
        var v := if neg then -(DigitsValue(body) as int) else DigitsValue(body) as int;
        if IsInt32(v) then Some(v) else None
  }

  function DigitChar(d: nat): (c: char)
    requires d < 10
    ensures IsAsciiDigit(c) && DigitValue(c) == d
  {
    ('0' as int + d) as char
  }

  /** `Integer.toString(n)` for a non-negative `n`: no sign, no leading zero. */
  function NatToString(n: nat): (s: string)
    ensures AllDigits(s) && s != []
    ensures |s| > 1 ==> s[0] != '0'
    decreases n
  {
    if n < 10 then [DigitChar(n)] else NatToString(n / 10) + [DigitChar(n % 10)]
  }

  /** Reading the digits of `Integer.toString(n)` back gives `n`. */
  lemma {:induction false} NatToStringValue(n: nat)
    ensures DigitsValue(NatToString(n)) == n
    decreases n
  {
    var s := NatToString(n);
    if n >= 10 {
      NatToStringValue(n / 10);
      assert s[..|s| - 1] == NatToString(n / 10);
    }
  }

  /** `Integer.parseInt(Integer.toString(n)) == n` for every non-negative int. */
  lemma ParseIntOfNatToString(n: nat)
    requires n <= INT_MAX
    ensures ParseInt(NatToString(n)) == Some(n)
  {
    NatToStringValue(n);
  }

  /** Rows below 100 print as one or two digits. */
  lemma NatToStringShort(n: nat)
    requires n < 100
    ensures 1 <= |NatToString(n)| <= 2
  {
    if n >= 10 { assert NatToString(n / 10) == [DigitChar(n / 10)]; }
  }

  /** Length of the longest prefix of `s` made of characters satisfying `p`. */
  function SpanLen(s: string, p: char -> bool): (k: nat)
    ensures k <= |s|
    ensures forall j :: 0 <= j < k ==> p(s[j])
    ensures k < |s| ==> !p(s[k])
  {
    if s != [] && p(s[0]) then 1 + SpanLen(s[1..], p) else 0
  }

  /** The span is `n` when the first `n` characters satisfy `p` and the
      next one does not. */
  lemma SpanLenExact(s: string, p: char -> bool, n: nat)
    requires n <= |s| && (forall j :: 0 <= j < n ==> p(s[j])) && (n < |s| ==> !p(s[n]))
    ensures SpanLen(s, p) == n
  {
  }

  // ------------------------------------------- Double.parseDouble syntax

  /** An exponent `[eE][+-]?digits` or `[pP][+-]?digits` without its marker. */
  predicate IsSignedDigits(s: string) {
    var b := if s != [] && (s[0] == '+' || s[0] == '-') then s[1..] else s;
    b != [] && AllDigits(b)
  }

  predicate IsFloatSuffix(c: char) { c == 'f' || c == 'F' || c == 'd' || c == 'D' }

  /** What may follow a decimal significand: an optional exponent, then an
      optional type suffix. */
  predicate IsDecimalTail(s: string) {
    if s == [] then true
    else if |s| == 1 && IsFloatSuffix(s[0]) then true
    else if s[0] == 'e' || s[0] == 'E' then
      (IsSignedDigits(s[1..]) || (|s| >= 2 && IsFloatSuffix(s[|s| - 1]) && IsSignedDigits(s[1..|s| - 1])))
    else false
  }

  /** A decimal literal without sign: digits with at most one `.`, at least
      one digit, then the tail. */
  predicate IsDecimalBody(b: string) {
    var k := SpanLen(b, IsAsciiDigit);
    var rest := b[k..];
    if rest != [] && rest[0] == '.' then
      var f := SpanLen(rest[1..], IsAsciiDigit);
      k + f > 0 && IsDecimalTail(rest[1 + f..])
    else
      k > 0 && IsDecimalTail(rest)
  }

  /** A hexadecimal literal without sign: `0x`, a hex significand with at
      least one hex digit, a binary exponent and an optional suffix. */
  predicate IsHexBody(b: string) {
    |b| >= 2 && b[0] == '0' && (b[1] == 'x' || b[1] == 'X') &&
    var s := b[2..];
    var k := SpanLen(s, IsHexDigit);
    var rest := s[k..];
    var f := if rest != [] && rest[0] == '.' then SpanLen(rest[1..], IsHexDigit) else 0;
    var afterSig := if rest != [] && rest[0] == '.' then rest[1 + f..] else rest;
    k + f > 0 &&
    afterSig != [] && (afterSig[0] == 'p' || afterSig[0] == 'P') &&
    (IsSignedDigits(afterSig[1..]) ||
     (|afterSig| >= 2 && IsFloatSuffix(afterSig[|afterSig| - 1]) && IsSignedDigits(afterSig[1..|afterSig| - 1])))
  }

  /** The strings `Double.parseDouble` accepts (it throws on every other one):
      after `trim`, an optional sign and then `NaN`, `Infinity`, a
      hexadecimal or a decimal literal. */
  predicate IsJavaDouble(s: string) {
    var t := Trim(s);
    t != [] &&
    var b := if t[0] == '+' || t[0] == '-' then t[1..] else t;
    b == "NaN" || b == "Infinity" || IsHexBody(b) || IsDecimalBody(b)
  }

  /** A string without blanks at either end that is a decimal literal,
      after an optional `-`, is a Java double. */
  lemma DecimalIsJavaDouble(s: string, n: nat)
    requires n <= 1 && n < |s| && (n == 1 <==> s[0] == '-')
    requires !IsTrimmable(s[0]) && !IsTrimmable(s[|s| - 1])
    requires s[0] != '+' && IsDecimalBody(s[n..])
    ensures IsJavaDouble(s)
  {
    TrimOfUntrimmed(s);
  }

  // ------------------------------------------------ digit-and-dot runs

  predicate IsNumberChar(c: char) { IsAsciiDigit(c) || c == '.' }

  /** Where the run of digits and dots that starts at `i` ends. */
  function RunEnd(cs: string, i: nat): (j: nat)
    requires i <= |cs|
    ensures i <= j <= |cs| && (j < |cs| ==> !IsNumberChar(cs[j]))
    ensures forall k :: i <= k < j ==> IsNumberChar(cs[k])
    decreases |cs| - i
  {
    if i < |cs| && IsNumberChar(cs[i]) then RunEnd(cs, i + 1) else i
  }

  /** The run at `i` ends at `j` when every character before `j` continues
      it and the one at `j` does not. */
  lemma {:induction false} RunEndOf(cs: string, i: nat, j: nat)
    requires i <= j <= |cs| && (forall k :: i <= k < j ==> IsNumberChar(cs[k]))
    requires j < |cs| ==> !IsNumberChar(cs[j])
    ensures RunEnd(cs, i) == j
    decreases j - i
  {
    if i < j {
      RunEndOf(cs, i + 1, j);
    }
  }

  function CountDots(s: string): nat {
    if s == [] then 0 else (if s[0] == '.' then 1 else 0) + CountDots(s[1..])
  }

  /** A run of digits and dots with at most one dot and at least one digit. */
  predicate IsDecimalRun(s: string) {
    (forall k :: 0 <= k < |s| ==> IsNumberChar(s[k])) && CountDots(s) <= 1 && CountDots(s) < |s|
  }

  /** Reads a run of digits and dots left to right in exact arithmetic:
      before the dot each digit is appended to the integer part `acc`;
      after it each digit adds its value times `unit`, which then shrinks
      tenfold. */
  function DecimalScan(s: string, acc: real, afterDot: bool, unit: real): (v: real)
    requires forall k :: 0 <= k < |s| ==> IsNumberChar(s[k])
    requires acc >= 0.0 && unit >= 0.0
    ensures v >= acc
    decreases |s|
  {
    if s == [] then acc
    else if s[0] == '.' then DecimalScan(s[1..], acc, true, 0.1)
    else
      assert IsNumberChar(s[0]);
      if afterDot then DecimalScan(s[1..], acc + DigitValue(s[0]) as real * unit, true, unit / 10.0)
      else DecimalScan(s[1..], acc * 10.0 + DigitValue(s[0]) as real, false, 1.0)
  }

  /** `Double.parseDouble` of a maximal run of digits and dots, with exact
      arithmetic: it succeeds exactly when the run holds at most one dot and
      at least one digit, and the value is never negative. */
  function ParseDecimalRun(s: string): (r: Option<real>)
    requires forall k :: 0 <= k < |s| ==> IsNumberChar(s[k])
    ensures r.Some? <==> IsDecimalRun(s)
    ensures r.Some? ==> r.value >= 0.0
  {
    if IsDecimalRun(s) then Some(DecimalScan(s, 0.0, false, 1.0)) else None
  }

  // ----------------------------------------------------------- doubles

  /** A Java `double` with exact arithmetic; every non-finite value
      (the infinities and NaN) is one value `NonFinite`. Any operation with
      a `NonFinite` operand gives `NonFinite`, which simplifies IEEE: there,
      a finite number divided by an infinity is a zero. */
  datatype Double = Finite(v: real) | NonFinite

  function DAdd(a: Double, b: Double): Double {
    if a.Finite? && b.Finite? then Finite(a.v + b.v) else NonFinite
  }

  function DSub(a: Double, b: Double): Double {
    if a.Finite? && b.Finite? then Finite(a.v - b.v) else NonFinite
  }

  function DMul(a: Double, b: Double): Double {
    if a.Finite? && b.Finite? then Finite(a.v * b.v) else NonFinite
  }

  /** Java's unchecked `/`: a zero divisor yields an infinity or NaN. */
  function DDiv(a: Double, b: Double): Double {
    if a.Finite? && b.Finite? && b.v != 0.0 then Finite(a.v / b.v) else NonFinite
  }

  /** What is known of `String.valueOf(double)`: its output is always a
      string `Double.parseDouble` accepts. */
  ghost predicate ValidRenderer(render: Double -> string) {
    forall d :: IsJavaDouble(render(d))
  }
}
