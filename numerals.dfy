/**
 * Integer formatting and parsing as the modelled code uses it:
 * `f'{n:X}'` and `f'{n:08X}'` (uppercase hexadecimal, zero padded),
 * `str(n)` (decimal with a leading '-') and `int(s)` (Python's parser
 * for decimal strings: surrounding whitespace, an optional sign, digits
 * with single underscores between them).
 */
module Numerals {
  import opened Wrappers

  const DigitChars: string := "0123456789ABCDEF"

  function DigitChar(d: nat): (ch: char)
    requires d < 16
  {
    DigitChars[d]
  }

  /** The value of an uppercase hexadecimal (or decimal) digit character. */
  function DigitValue(ch: char): (d: nat)
    ensures d < 16
  {
    if '0' <= ch <= '9' then ch as int - '0' as int
    else if 'A' <= ch <= 'F' then ch as int - 'A' as int + 10
    else 0
  }

  lemma DigitRoundTrip(d: nat)
    requires d < 16
    ensures DigitValue(DigitChar(d)) == d
  {
  }

  predicate IsDecimalDigit(ch: char) { '0' <= ch <= '9' }

  /** The digits of `n` in base `b`, most significant first, without leading zeros. */
  function ToBase(n: nat, b: nat): (s: string)
    requires 2 <= b <= 16
    ensures |s| >= 1
  {
    if n < b then [DigitChar(n)] else ToBase(n / b, b) + [DigitChar(n % b)]
  }

  /** A digit character of base `b`. */
  predicate IsDigitOf(ch: char, b: nat)
  {
    || ('0' <= ch <= '9' && ch as int - '0' as int < b)
    || ('A' <= ch <= 'F' && ch as int - 'A' as int + 10 < b)
  }

  lemma DigitCharIsDigit(d: nat, b: nat)
    requires d < b <= 16
    ensures IsDigitOf(DigitChar(d), b)
  {
  }

  /** One step of `ToBase`: the digits of the quotient, then the digit of the remainder. */
  lemma ToBaseStep(n: nat, b: nat) returns (q: nat, r: nat)
    requires 2 <= b <= 16 && n >= b
    ensures r < b && q < n && n == q * b + r
    ensures ToBase(n, b) == ToBase(q, b) + [DigitChar(r)]
  {
    q, r := n / b, n % b;
  }

  lemma {:induction false} ToBaseDigits(n: nat, b: nat)
    requires 2 <= b <= 16
    ensures forall i :: 0 <= i < |ToBase(n, b)| ==> IsDigitOf(ToBase(n, b)[i], b)
    decreases n
  {
    if n >= b {
      var q, r := ToBaseStep(n, b);
      ToBaseDigits(q, b);
      DigitCharIsDigit(r, b);
    } else {
      DigitCharIsDigit(n, b);
    }
  }

  /** The value of a digit string in base `b`. */
  function FromBase(s: string, b: nat): nat
  {
    if |s| == 0 then 0 else FromBase(s[..|s| - 1], b) * b + DigitValue(s[|s| - 1])
  }

  lemma {:induction false} FromToBase(n: nat, b: nat)
    requires 2 <= b <= 16
    ensures FromBase(ToBase(n, b), b) == n
    decreases n
  {
    if n >= b {
      var q, d := ToBaseStep(n, b);
      var s := ToBase(n, b);
      assert s[..|s| - 1] == ToBase(q, b);
      FromToBase(q, b);
      DigitRoundTrip(d);
      assert FromBase(s, b) == q * b + d;
    } else {
      DigitRoundTrip(n);
    }
  }

  function Power(b: nat, k: nat): nat
  {
    if k == 0 then 1 else b * Power(b, k - 1)
  }

  lemma {:induction false} ToBaseLength(n: nat, b: nat, k: nat)
    requires 2 <= b <= 16 && k >= 1 && n < Power(b, k)
    ensures |ToBase(n, b)| <= k
  {
    if n >= b {
      var q, r := ToBaseStep(n, b);
      if k == 1 {
        assert false;
      }
      QuotientBelowPower(n, q, r, b, k - 1);
      ToBaseLength(q, b, k - 1);
    }
  }

  lemma QuotientBelowPower(n: nat, q: nat, r: nat, b: nat, k: nat)
    requires 2 <= b && n == q * b + r && n < Power(b, k + 1)
    ensures q < Power(b, k)
  {
    var p := Power(b, k);
    assert Power(b, k + 1) == b * p;
    if q >= p {
      MulMono(p, q, b);
    }
  }

  lemma MulMono(p: nat, q: nat, b: nat)
    requires p <= q
    ensures p * b <= q * b
  {
  }

  /** `s` left padded with `ch` to at least `width` characters. */
  function PadLeft(s: string, width: nat, ch: char): (r: string)
    ensures |r| == if |s| >= width then |s| else width
  {
    if |s| >= width then s else seq(width - |s|, _ => ch) + s
  }

  lemma {:induction false} FromBaseLeadingZeros(z: string, s: string, b: nat)
    requires forall i :: 0 <= i < |z| ==> z[i] == '0'
    ensures FromBase(z + s, b) == FromBase(s, b)
    decreases |s|
  {
    if |s| == 0 {
      assert z + s == z;
      AllZeros(z, b);
    } else {
      assert (z + s)[..|z + s| - 1] == z + s[..|s| - 1];
      FromBaseLeadingZeros(z, s[..|s| - 1], b);
    }
  }

  lemma {:induction false} AllZeros(z: string, b: nat)
    requires forall i :: 0 <= i < |z| ==> z[i] == '0'
    ensures FromBase(z, b) == 0
  {
    if |z| > 0 { AllZeros(z[..|z| - 1], b); }
  }

  /** `f'{n:0{width}X}'` */
  function Hex(n: nat, width: nat): (s: string)
  {
    PadLeft(ToBase(n, 16), width, '0')
  }

  /** Reading the padded hexadecimal text back gives the number. */
  lemma HexRoundTrip(n: nat, width: nat)
    ensures FromBase(Hex(n, width), 16) == n
  {
    var digits := ToBase(n, 16);
    var zeros := if |digits| >= width then "" else seq(width - |digits|, _ => '0');
    assert Hex(n, width) == zeros + digits;
    FromBaseLeadingZeros(zeros, digits, 16);
    FromToBase(n, 16);
  }

  /** `f'{n:08X}'` has exactly eight characters while `n` fits 32 bits. */
  lemma HexWidth(n: nat, width: nat)
    requires width >= 1 && n < Power(16, width)
    ensures |Hex(n, width)| == width
  {
    ToBaseLength(n, 16, width);
  }

  /** `str(n)` for an int. */
  function IntToString(i: int): (s: string)
    ensures |s| >= 1
  {
    if i < 0 then "-" + ToBase(-i, 10) else ToBase(i, 10)
  }

  predicate IsSpace(ch: char)
  {
    ch == ' ' || ch == '\t' || ch == '\n' || ch == '\r' || ch == '\U{B}' || ch == '\U{C}'
  }

  /** `s.strip()` restricted to ASCII whitespace. */
  function Strip(s: string): (r: string)
    decreases |s|
  {
    if |s| > 0 && IsSpace(s[0]) then Strip(s[1..])
    else if |s| > 0 && IsSpace(s[|s| - 1]) then Strip(s[..|s| - 1])
    else s
  }

  /** Digits with single underscores between them, as Python's `int` accepts. */
  predicate DigitGroups(s: string)
  {
    && |s| >= 1
    && IsDecimalDigit(s[0]) && IsDecimalDigit(s[|s| - 1])
    && (forall i :: 0 <= i < |s| ==> IsDecimalDigit(s[i]) || s[i] == '_')
    && (forall i :: 0 <= i < |s| - 1 ==> !(s[i] == '_' && s[i + 1] == '_'))
  }

  function DropUnderscores(s: string): (r: string)
    ensures |r| <= |s|
  {
    if |s| == 0 then ""
    else DropUnderscores(s[..|s| - 1]) + (if s[|s| - 1] == '_' then "" else [s[|s| - 1]])
  }

  /**
   * `sys.get_int_max_str_digits()` as Python sets it by default: `int(s)`
   * and `str(i)` refuse decimal numbers of more digits.
   */
  const MaxStrDigits := 4300

  /** `str(i)` does not raise: `i` has at most `MaxStrDigits` decimal digits. */
  predicate StrFits(i: int)
  {
    var m: nat := if i < 0 then -i else i;
    |ToBase(m, 10)| <= MaxStrDigits
  }

  /** `int(s)`: `None` where Python raises `ValueError`, including past the digit limit. */
  function ParseInt(s: string): (r: Option<int>)
  {
    var t := Strip(s);
    if |t| == 0 then None
    else
      var negative := t[0] == '-';
      var body := if t[0] == '-' || t[0] == '+' then t[1..] else t;
      if !DigitGroups(body) then None
      else
        var digits := DropUnderscores(body);
        if |digits| > MaxStrDigits then None
        else
          var magnitude := FromBase(digits, 10);
          var value: int := if negative then -(magnitude as int) else magnitude;
          Some(value)
  }

  lemma {:induction false} DropUnderscoresOfDigits(s: string)
    requires forall i :: 0 <= i < |s| ==> IsDecimalDigit(s[i])
    ensures DropUnderscores(s) == s
  {
    if |s| > 0 {
      DropUnderscoresOfDigits(s[..|s| - 1]);
      assert s[..|s| - 1] + [s[|s| - 1]] == s;
    }
  }

  lemma StripNoSpace(s: string)
    requires |s| >= 1 && !IsSpace(s[0]) && !IsSpace(s[|s| - 1])
    ensures Strip(s) == s
  {
  }

  /** A run of digits is a digit group. */
  lemma DigitsAreGroups(digits: string)
    requires |digits| >= 1 && forall i :: 0 <= i < |digits| ==> IsDecimalDigit(digits[i])
    ensures DigitGroups(digits)
  {
  }

  /** An optional minus sign and digits: nothing to strip, and the digits follow the sign. */
  lemma SignedDigits(negative: bool, digits: string)
    requires |digits| >= 1 && forall i :: 0 <= i < |digits| ==> IsDecimalDigit(digits[i])
    ensures var s := (if negative then "-" else "") + digits;
      && Strip(s) == s && |s| >= 1
      && (s[0] == '-' <==> negative)
      && (if s[0] == '-' || s[0] == '+' then s[1..] else s) == digits
  {
    var s := (if negative then "-" else "") + digits;
    assert s[|s| - 1] == digits[|digits| - 1];
    assert !negative ==> s[0] == digits[0];
    StripNoSpace(s);
  }

  lemma ParseDigits(negative: bool, digits: string)
    requires |digits| >= 1 && forall i :: 0 <= i < |digits| ==> IsDecimalDigit(digits[i])
    requires |digits| <= MaxStrDigits
    ensures ParseInt((if negative then "-" else "") + digits)
         == Some(if negative then -(FromBase(digits, 10) as int) else FromBase(digits, 10))
  {
    SignedDigits(negative, digits);
    DigitsAreGroups(digits);
    DropUnderscoresOfDigits(digits);
    ParseSigned(negative, (if negative then "-" else "") + digits, digits);
  }

  /** `int(s)` of a stripped text whose body after the sign is a digit group. */
  lemma ParseSigned(negative: bool, s: string, digits: string)
    requires Strip(s) == s && |s| >= 1 && (s[0] == '-' <==> negative)
    requires (if s[0] == '-' || s[0] == '+' then s[1..] else s) == digits
    requires DigitGroups(digits) && DropUnderscores(digits) == digits
    requires |digits| <= MaxStrDigits
    ensures ParseInt(s) == Some(if negative then -(FromBase(digits, 10) as int) else FromBase(digits, 10))
  {
  }

  /** `int(str(i)) == i`, for every `i` that `str` can print. */
  lemma ParseIntRoundTrip(i: int)
    requires StrFits(i)
    ensures ParseInt(IntToString(i)) == Some(i)
  {
    var m: nat := if i < 0 then -i else i;
    var digits := ToBase(m, 10);
    ToBaseDigits(m, 10);
    assert IntToString(i) == (if i < 0 then "-" else "") + digits;
    ParseDigits(i < 0, digits);
    FromToBase(m, 10);
  }

  /** More than `MaxStrDigits` digits make `int(s)` raise, whatever they spell. */
  lemma ParseIntRefusesLong(negative: bool, digits: string)
    requires |digits| > MaxStrDigits && forall i :: 0 <= i < |digits| ==> IsDecimalDigit(digits[i])
    ensures ParseInt((if negative then "-" else "") + digits) == None
  {
    SignedDigits(negative, digits);
    DigitsAreGroups(digits);
    DropUnderscoresOfDigits(digits);
  }
}
