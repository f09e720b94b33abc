/**
 * JavaScript's `parseInt(s)` with no radix argument, as used on the output
 * of `du -sk` (src/utils/filesystem.ts:78): leading white space is
 * skipped, one sign is read, a `0x`/`0X` prefix selects base 16 and
 * otherwise base 10, and the longest run of digits that follows is the
 * value. No digits at all gives `NaN`, written `None` here.
 */
module JsNumber {

  import opened Wrappers

  /** The characters JavaScript's `StrWhiteSpaceChar` admits. */
  predicate IsJsWhitespace(c: char)
  {
    || c == '\t' || c == '\n' || c == '\U{B}' || c == '\U{C}' || c == '\r' || c == ' '
    || c == '\U{A0}' || c == '\U{1680}' || ('\U{2000}' <= c <= '\U{200A}')
    || c == '\U{2028}' || c == '\U{2029}' || c == '\U{202F}' || c == '\U{205F}'
    || c == '\U{3000}' || c == '\U{FEFF}'
  }

  /** `s` without its leading white space. */
  function TrimStart(s: string): (r: string)
    ensures r == [] || !IsJsWhitespace(r[0])
    ensures |r| <= |s| && r == s[|s| - |r|..]
  {
    if s != [] && IsJsWhitespace(s[0]) then TrimStart(s[1..]) else s
  }

  /** The value of `c` as a digit in base `radix`, if it is one. */
  function DigitValue(c: char, radix: nat): Option<nat>
  {
    var v :=
      if '0' <= c <= '9' then c as int - '0' as int
      else if 'a' <= c <= 'z' then c as int - 'a' as int + 10
      else if 'A' <= c <= 'Z' then c as int - 'A' as int + 10
      else 36;
    if v < radix then Some(v) else None
  }

  predicate IsDigit(c: char, radix: nat)
  {
    DigitValue(c, radix).Some?
  }

  /** The longest prefix of `s` made of base-`radix` digits. */
  function LeadingDigits(s: string, radix: nat): (r: string)
    ensures StartsWithPrefix(s, r)
    ensures forall i :: 0 <= i < |r| ==> IsDigit(r[i], radix)
    ensures |r| < |s| ==> !IsDigit(s[|r|], radix)
  {
    if s != [] && IsDigit(s[0], radix) then [s[0]] + LeadingDigits(s[1..], radix) else []
  }

  predicate StartsWithPrefix(s: string, r: string)
  {
    |r| <= |s| && s[..|r|] == r
  }

  /** The value of a run of digits, most significant first. */
  function DigitsValue(d: string, radix: nat): nat
    requires forall i :: 0 <= i < |d| ==> IsDigit(d[i], radix)
  {
    if d == [] then 0
    else
      var init := d[..|d| - 1];
      assert forall i :: 0 <= i < |init| ==> init[i] == d[i];
      assert IsDigit(d[|d| - 1], radix);
      var high: nat := DigitsValue(init, radix);
      var low: nat := DigitValue(d[|d| - 1], radix).value;
      assert high * radix >= 0;
      high * radix + low
  }

  /** The unsigned part: an optional `0x`/`0X` prefix and the longest run
      of digits after it. */
  function ParseMagnitude(u: string): Option<nat>
  {
    var hex := |u| >= 2 && u[0] == '0' && (u[1] == 'x' || u[1] == 'X');
    var radix := if hex then 16 else 10;
    var digits := LeadingDigits(if hex then u[2..] else u, radix);
    if digits == [] then None else Some(DigitsValue(digits, radix))
  }

  function ParseInt(s: string): (r: Option<int>)
  {
    var t := TrimStart(s);
    var negative := t != [] && t[0] == '-';
    var u := if t != [] && (t[0] == '-' || t[0] == '+') then t[1..] else t;
    match ParseMagnitude(u)
    case None => None
    case Some(magnitude) =>
      var m: int := magnitude;
      var signed: int := if negative then -m else m;
      Some(signed)
  }

  predicate IsDecimal(d: string)
  {
    d != [] && forall i :: 0 <= i < |d| ==> '0' <= d[i] <= '9'
  }

  /** The digit run stops at the first non-digit. */
  lemma {:induction false} LeadingDigitsOf(d: string, rest: string, radix: nat)
    requires forall i :: 0 <= i < |d| ==> IsDigit(d[i], radix)
    requires rest == [] || !IsDigit(rest[0], radix)
    ensures LeadingDigits(d + rest, radix) == d
  {
    if d != [] {
      assert (d + rest)[0] == d[0];
      assert (d + rest)[1..] == d[1..] + rest;
      LeadingDigitsOf(d[1..], rest, radix);
    } else {
      assert d + rest == rest;
    }
  }

  lemma DecimalDigitsAreDigits(d: string)
    requires IsDecimal(d)
    ensures forall i :: 0 <= i < |d| ==> IsDigit(d[i], 10)
  {
    forall i | 0 <= i < |d| ensures IsDigit(d[i], 10) {
      assert '0' <= d[i] <= '9';
    }
  }

  /** Only `0` to `9` are digits in base 10. */
  lemma NotDecimalDigit(c: char)
    requires !('0' <= c <= '9')
    ensures !IsDigit(c, 10)
  {
  }

  lemma MagnitudeOfDecimal(d: string, rest: string)
    requires IsDecimal(d)
    requires forall i :: 0 <= i < |d| ==> IsDigit(d[i], 10)
    requires rest == [] || (!('0' <= rest[0] <= '9') && rest[0] != 'x' && rest[0] != 'X')
    ensures ParseMagnitude(d + rest) == Some(DigitsValue(d, 10))
  {
    if rest != [] {
      NotDecimalDigit(rest[0]);
    }
    var u := d + rest;
    assert u[0] == d[0];
    assert |u| >= 2 ==> u[1] != 'x' && u[1] != 'X' by {
      if |d| >= 2 {
        assert u[1] == d[1] && '0' <= d[1] <= '9';
      } else if |u| >= 2 {
        assert u[1] == rest[0];
      }
    }
    LeadingDigitsOf(d, rest, 10);
  }

  /** A run of decimal digits, followed by anything that is neither a digit
      nor an `x`, parses to the run's value. */
  lemma ParseIntDecimal(d: string, rest: string)
    requires IsDecimal(d)
    requires rest == [] || (!('0' <= rest[0] <= '9') && rest[0] != 'x' && rest[0] != 'X')
    ensures forall i :: 0 <= i < |d| ==> IsDigit(d[i], 10)
    ensures ParseInt(d + rest) == Some(DigitsValue(d, 10))
  {
    DecimalDigitsAreDigits(d);
    MagnitudeOfDecimal(d, rest);
    var s := d + rest;
    assert s[0] == d[0];
    DigitFirstNotTrimmed(s);
    Unsigned(s, DigitsValue(d, 10));
  }

  /** A leading decimal digit is not white space, so nothing is skipped. */
  lemma DigitFirstNotTrimmed(s: string)
    requires s != [] && '0' <= s[0] <= '9'
    ensures TrimStart(s) == s
  {
  }

  /** Without white space or a sign in front, the value is the magnitude. */
  lemma Unsigned(s: string, n: nat)
    requires s != [] && '0' <= s[0] <= '9' && TrimStart(s) == s
    requires ParseMagnitude(s) == Some(n)
    ensures ParseInt(s) == Some(n)
  {
    var t := TrimStart(s);
    assert !(t != [] && t[0] == '-') && !(t != [] && t[0] == '+');
  }

  /** Without a leading minus sign the result is never negative. */
  lemma ParseIntNonNegative(s: string)
    requires var t := TrimStart(s); t == [] || t[0] != '-'
    ensures ParseInt(s).Some? ==> ParseInt(s).value >= 0
  {
  }

  /** Everything `TrimStart` drops is white space. */
  lemma {:induction false} TrimStartDropsWhitespace(s: string)
    ensures forall i :: 0 <= i < |s| - |TrimStart(s)| ==> IsJsWhitespace(s[i])
  {
    if s != [] && IsJsWhitespace(s[0]) {
      TrimStartDropsWhitespace(s[1..]);
      assert forall i :: 1 <= i < |s| ==> s[i] == s[1..][i - 1];
    }
  }
}
