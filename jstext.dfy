/**
 * The JavaScript string semantics the service relies on, written out per ECMA-262:
 * white space, String.prototype.trim, the UTF-16 `length` of a string and the
 * global parseInt (section 19.2.5) called without a radix.
 *
 * A Dafny `char` is a Unicode scalar value, so a string here is a sequence of
 * code points; `Utf16Length` gives the number of UTF-16 code units that
 * JavaScript's `length` reports for the same text.
 */
module JsText {
  import opened Wrappers

  /** WhiteSpace (section 12.2) and LineTerminator (section 12.3) code points of
      ECMA-262: what `trim` strips, what parseInt skips and what `\s` matches. */
  predicate IsJsWhitespace(c: char) {
    || c == '\t' || c == '\n' || c == '\U{000B}' || c == '\U{000C}' || c == '\r'
    || c == ' ' || c == '\U{00A0}' || c == '\U{1680}' || ('\U{2000}' <= c <= '\U{200A}')
    || c == '\U{2028}' || c == '\U{2029}' || c == '\U{202F}' || c == '\U{205F}'
    || c == '\U{3000}' || c == '\U{FEFF}'
  }

  predicate AllWhitespace(s: string) {
    forall k :: 0 <= k < |s| ==> IsJsWhitespace(s[k])
  }

  /** `s` neither starts nor ends with white space. */
  predicate Trimmed(s: string) {
    s == [] || (!IsJsWhitespace(s[0]) && !IsJsWhitespace(s[|s| - 1]))
  }

  /** The number of white-space code points `s` starts with. */
  function LeadingSpace(s: string): (n: nat)
    ensures n <= |s|
    ensures forall k :: 0 <= k < n ==> IsJsWhitespace(s[k])
    ensures n < |s| ==> !IsJsWhitespace(s[n])
  {
    if |s| > 0 && IsJsWhitespace(s[0]) then
      var m := LeadingSpace(s[1..]);
      assert forall k :: 1 <= k < 1 + m ==> s[k] == s[1..][k - 1];
      1 + m
    else
      0
  }

  /** The number of white-space code points `s` ends with. */
  function TrailingSpace(s: string): (n: nat)
    ensures n <= |s|
    ensures forall k :: |s| - n <= k < |s| ==> IsJsWhitespace(s[k])
    ensures n < |s| ==> !IsJsWhitespace(s[|s| - n - 1])
  {
    if |s| > 0 && IsJsWhitespace(s[|s| - 1]) then
      var m := TrailingSpace(s[..|s| - 1]);
      assert forall k :: |s| - 1 - m <= k < |s| - 1 ==> s[k] == s[..|s| - 1][k];
      1 + m
    else
      0
  }

  /** A count that stops at the first code point that is not white space is
      the leading white space. */
  lemma LeadingSpaceUnique(s: string, n: nat)
    requires n <= |s|
    requires forall k :: 0 <= k < n ==> IsJsWhitespace(s[k])
    requires n < |s| ==> !IsJsWhitespace(s[n])
    ensures LeadingSpace(s) == n
  {
  }

  lemma TrailingSpaceUnique(s: string, n: nat)
    requires n <= |s|
    requires forall k :: |s| - n <= k < |s| ==> IsJsWhitespace(s[k])
    requires n < |s| ==> !IsJsWhitespace(s[|s| - n - 1])
    ensures TrailingSpace(s) == n
  {
  }

  /** TrimString(s, start): drops the leading white space. */
  function TrimStart(s: string): (r: string)
    ensures r == s[LeadingSpace(s)..]
    ensures r != [] ==> !IsJsWhitespace(r[0])
  {
    s[LeadingSpace(s)..]
  }

  /** String.prototype.trim, TrimString(s, start+end): the code points between
      the leading and the trailing white space, or nothing when `s` is all
      white space. */
  function Trim(s: string): (r: string)
    ensures Trimmed(r)
    ensures |r| <= |s|
  {
    var i := LeadingSpace(s);
    var j := |s| - TrailingSpace(s);
    if i == |s| then [] else
      assert i < j by {
        assert !IsJsWhitespace(s[i]);
      }
      s[i..j]
  }

  /** The result of trim is the infix of `s` between its leading and its
      trailing white space. */
  lemma TrimInfix(s: string)
    ensures var i := LeadingSpace(s);
            var j := i + |Trim(s)|;
            && j <= |s|
            && Trim(s) == s[i..j]
            && (forall k :: 0 <= k < i ==> IsJsWhitespace(s[k]))
            && (forall k :: j <= k < |s| ==> IsJsWhitespace(s[k]))
  {
  }

  lemma TrimStartPadded(p: string, s: string)
    requires AllWhitespace(p)
    ensures TrimStart(p + s) == TrimStart(s)
  {
    var n := LeadingSpace(s);
    forall k | |p| <= k < |p| + n ensures IsJsWhitespace((p + s)[k]) {
      assert (p + s)[k] == s[k - |p|];
    }
    LeadingSpaceUnique(p + s, |p| + n);
    assert (p + s)[|p| + n..] == s[n..];
  }

  /** Only white space trims to the empty string. */
  lemma TrimEmptyIff(s: string)
    ensures Trim(s) == [] <==> AllWhitespace(s)
  {
    TrimInfix(s);
    var i := LeadingSpace(s);
    if Trim(s) != [] {
      assert Trim(s)[0] == s[i];
    }
  }

  lemma LeadingSpaceOfPadded(p: string, t: string)
    requires AllWhitespace(p) && t != [] && !IsJsWhitespace(t[0])
    ensures LeadingSpace(p + t) == |p|
  {
    var s := p + t;
    forall k | 0 <= k < |p| ensures IsJsWhitespace(s[k]) {
      assert s[k] == p[k];
    }
    assert s[|p|] == t[0];
    LeadingSpaceUnique(s, |p|);
  }

  lemma TrailingSpaceOfPadded(t: string, q: string)
    requires AllWhitespace(q) && t != [] && !IsJsWhitespace(t[|t| - 1])
    ensures TrailingSpace(t + q) == |q|
  {
    var s := t + q;
    forall k | |s| - |q| <= k < |s| ensures IsJsWhitespace(s[k]) {
      assert s[k] == q[k - |t|];
    }
    assert s[|s| - |q| - 1] == t[|t| - 1];
    TrailingSpaceUnique(s, |q|);
  }

  lemma AllWhitespaceAppend(p: string, q: string)
    requires AllWhitespace(p) && AllWhitespace(q)
    ensures AllWhitespace(p + q)
  {
    var s := p + q;
    forall k | 0 <= k < |s| ensures IsJsWhitespace(s[k]) {
      if k >= |p| { assert s[k] == q[k - |p|]; } else { assert s[k] == p[k]; }
    }
  }

  /** Trimming text padded with white space gives back the text. */
  lemma TrimPadded(p: string, t: string, q: string)
    requires AllWhitespace(p) && AllWhitespace(q) && Trimmed(t)
    ensures Trim(p + t + q) == t
  {
    var s := p + t + q;
    if t == [] {
      assert s == p + q;
      AllWhitespaceAppend(p, q);
      TrimEmptyIff(s);
    } else {
      assert s == p + (t + q);
      TrailingSpaceOfPadded(t, q);
      assert (t + q)[0] == t[0];
      LeadingSpaceOfPadded(p, t + q);
      assert TrailingSpace(s) == |q| by {
        assert s == (p + t) + q;
        assert (p + t)[|p + t| - 1] == t[|t| - 1];
        TrailingSpaceOfPadded(p + t, q);
      }
      assert s[|p|..|s| - |q|] == t;
    }
  }

  /** Trimming is idempotent. */
  lemma TrimIdempotent(s: string)
    ensures Trim(Trim(s)) == Trim(s)
  {
    var t := Trim(s);
    assert [] + t + [] == t;
    TrimPadded([], t, []);
  }

  /** The strings trim leaves alone are exactly those without white space at
      either end. */
  lemma TrimFixesTrimmed(s: string)
    ensures Trim(s) == s <==> Trimmed(s)
  {
    if Trimmed(s) {
      assert [] + s + [] == s;
      TrimPadded([], s, []);
    }
  }

  /** UTF-16 code units needed for one code point. */
  function CodeUnits(c: char): nat {
    if c as int > 0xFFFF then 2 else 1
  }

  /** What JavaScript's `length` reports for the string: its UTF-16 code units. */
  function Utf16Length(s: string): nat {
    if s == [] then 0 else CodeUnits(s[0]) + Utf16Length(s[1..])
  }

  lemma {:induction false} Utf16LengthAppend(a: string, b: string)
    ensures Utf16Length(a + b) == Utf16Length(a) + Utf16Length(b)
    decreases |a|
  {
    if a == [] {
      assert a + b == b;
    } else {
      assert (a + b)[1..] == a[1..] + b;
      Utf16LengthAppend(a[1..], b);
    }
  }

  /** Every code point takes one or two code units. */
  lemma {:induction false} Utf16LengthBounds(s: string)
    ensures |s| <= Utf16Length(s) <= 2 * |s|
    decreases |s|
  {
    if s != [] {
      Utf16LengthBounds(s[1..]);
    }
  }

  /** Text of the Basic Multilingual Plane has one code unit per code point. */
  lemma {:induction false} Utf16LengthBmp(s: string)
    requires forall k :: 0 <= k < |s| ==> s[k] as int <= 0xFFFF
    ensures Utf16Length(s) == |s|
    decreases |s|
  {
    if s != [] {
      Utf16LengthBmp(s[1..]);
    }
  }

  /** Trimming never lengthens a string. */
  lemma TrimUtf16Length(s: string)
    ensures Utf16Length(Trim(s)) <= Utf16Length(s)
  {
    TrimInfix(s);
    var i := LeadingSpace(s);
    var j := i + |Trim(s)|;
    assert s == s[..i] + Trim(s) + s[j..];
    Utf16LengthAppend(s[..i] + Trim(s), s[j..]);
    Utf16LengthAppend(s[..i], Trim(s));
  }

  /** `n` copies of `c`. */
  function Repeat(c: char, n: nat): (r: string)
    ensures |r| == n
    ensures forall k :: 0 <= k < n ==> r[k] == c
  {
    if n == 0 then [] else [c] + Repeat(c, n - 1)
  }

  /** The value of a digit in radices up to 36; 36 for any other character. */
  function DigitValue(c: char): nat {
    if '0' <= c <= '9' then c as int - '0' as int
    else if 'a' <= c <= 'z' then c as int - 'a' as int + 10
    else if 'A' <= c <= 'Z' then c as int - 'A' as int + 10
    else 36
  }

  predicate IsRadixDigit(c: char, radix: nat) {
    DigitValue(c) < radix
  }

  /** The longest prefix of `s` made of digits of the radix. */
  function DigitPrefix(s: string, radix: nat): (z: string)
    ensures |z| <= |s| && z == s[..|z|]
    ensures forall k :: 0 <= k < |z| ==> IsRadixDigit(z[k], radix)
    ensures |z| < |s| ==> !IsRadixDigit(s[|z|], radix)
  {
    if |s| > 0 && IsRadixDigit(s[0], radix) then [s[0]] + DigitPrefix(s[1..], radix) else []
  }

  /** The mathematical value of a digit string in the radix. */
  function DigitsValue(z: string, radix: nat): nat {
    if z == [] then 0 else DigitsValue(z[..|z| - 1], radix) * radix + DigitValue(z[|z| - 1])
  }

  /**
   * parseInt(s) with the radix left undefined (section 19.2.5 of ECMA-262):
   * skip leading white space, take one sign, read "0x"/"0X" as a switch to
   * radix 16, then the longest run of digits. None stands for NaN; -0 is
   * represented by 0, since both are falsy.
   */
  function ParseInt(s: string): Option<int> {
    ParseUnpadded(TrimStart(s))
  }

  /** parseInt once the leading white space is gone: one optional sign. */
  function ParseUnpadded(t: string): Option<int> {
    if |t| > 0 && t[0] == '-' then
      match ParseUnsigned(t[1..])
      case None => None
      case Some(m) => Some(-(m as int))
    else if |t| > 0 && t[0] == '+' then ParseUnsigned(t[1..])
    else ParseUnsigned(t)
  }

  predicate HexPrefixed(u: string) {
    |u| >= 2 && u[0] == '0' && (u[1] == 'x' || u[1] == 'X')
  }

  /** The digits after the sign: radix 16 after "0x" or "0X", radix 10 otherwise. */
  function ParseUnsigned(u: string): Option<nat> {
    var radix := if HexPrefixed(u) then 16 else 10;
    var z := DigitPrefix(if HexPrefixed(u) then u[2..] else u, radix);
    if z == [] then None else Some(DigitsValue(z, radix))
  }

  function DecimalDigit(d: nat): (c: char)
    requires d < 10
    ensures DigitValue(c) == d
  {
    ['0', '1', '2', '3', '4', '5', '6', '7', '8', '9'][d]
  }

  /** The canonical decimal text of a natural number, as Number.prototype.toString
      writes it: decimal digits, no leading zero. */
  function DecimalString(n: nat): (r: string)
    ensures |r| >= 1
    ensures forall k :: 0 <= k < |r| ==> '0' <= r[k] <= '9'
    ensures r[0] == '0' ==> n == 0 && r == "0"
  {
    if n < 10 then [DecimalDigit(n)] else DecimalString(n / 10) + [DecimalDigit(n % 10)]
  }

  lemma {:induction false} DecimalStringValue(n: nat)
    ensures DigitsValue(DecimalString(n), 10) == n
    decreases n
  {
    var r := DecimalString(n);
    if n >= 10 {
      assert r[..|r| - 1] == DecimalString(n / 10);
      DecimalStringValue(n / 10);
    } else {
      assert r[..|r| - 1] == [];
    }
  }

  lemma {:induction false} DigitPrefixOfDigits(z: string, rest: string, radix: nat)
    requires forall k :: 0 <= k < |z| ==> IsRadixDigit(z[k], radix)
    requires rest == [] || !IsRadixDigit(rest[0], radix)
    ensures DigitPrefix(z + rest, radix) == z
    decreases |z|
  {
    if z == [] {
      assert z + rest == rest;
    } else {
      assert (z + rest)[1..] == z[1..] + rest;
      DigitPrefixOfDigits(z[1..], rest, radix);
      assert z == [z[0]] + z[1..];
    }
  }

  lemma ParseUnsignedDecimal(n: nat, rest: string)
    requires rest == [] || (!IsRadixDigit(rest[0], 10) && (n != 0 || (rest[0] != 'x' && rest[0] != 'X')))
    ensures ParseUnsigned(DecimalString(n) + rest) == Some(n)
  {
    var d := DecimalString(n);
    var u := d + rest;
    assert u[0] == d[0];
    assert !HexPrefixed(u);
    forall k | 0 <= k < |d| ensures IsRadixDigit(d[k], 10) {
      assert '0' <= d[k] <= '9';
    }
    DigitPrefixOfDigits(d, rest, 10);
    DecimalStringValue(n);
  }

  /** parseInt reads the decimal text of a number back, and stops at the first
      character that is not a digit ("12abc" reads as 12); only "0x" after a
      lone 0 switches the radix. */
  lemma ParseIntDecimalPrefix(n: nat, rest: string)
    requires rest == [] || (!IsRadixDigit(rest[0], 10) && (n != 0 || (rest[0] != 'x' && rest[0] != 'X')))
    ensures ParseInt(DecimalString(n) + rest) == Some(n)
  {
    var d := DecimalString(n);
    var s := d + rest;
    assert s[0] == d[0];
    assert TrimStart(s) == s;
    ParseUnsignedDecimal(n, rest);
  }

  /** A minus sign negates what follows it. */
  lemma ParseIntNegativeDecimal(n: nat)
    ensures ParseInt("-" + DecimalString(n)) == Some(-(n as int))
  {
    var d := DecimalString(n);
    var s := "-" + d;
    assert LeadingSpace(s) == 0 by {
      assert s[0] == '-';
    }
    assert s[1..] == d + [];
    ParseUnsignedDecimal(n, []);
  }

  /** Leading white space does not change what parseInt reads. */
  lemma ParseIntLeadingWhitespace(p: string, s: string)
    requires AllWhitespace(p)
    ensures ParseInt(p + s) == ParseInt(s)
  {
    TrimStartPadded(p, s);
  }

  /** Text whose first non-blank character is neither a sign nor a decimal digit is NaN. */
  lemma ParseIntNotANumber(s: string)
    requires var t := TrimStart(s); t == [] || (!IsRadixDigit(t[0], 10) && t[0] != '-' && t[0] != '+')
    ensures ParseInt(s) == None
  {
  }
}
