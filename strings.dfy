/**
 * Character-level helpers the scripts rely on through JavaScript built-ins:
 * String.prototype.toLowerCase (on ASCII letters), Array.prototype.join,
 * and the decimal rendering and parsing of non-negative integers.
 */
module Strings {

  // ---------------------------------------------------------------------------
  // Lower-casing

  predicate IsUpperAscii(c: char) { 'A' <= c <= 'Z' }

  function LowerChar(c: char): (d: char)
    ensures !IsUpperAscii(d)
    ensures !IsUpperAscii(c) ==> d == c
    ensures IsUpperAscii(c) ==> 'a' <= d <= 'z' && d as int == c as int + 32
  {
    if IsUpperAscii(c) then (c as int + 32) as char else c
  }

  /** ASCII model of String.prototype.toLowerCase. */
  function ToLower(s: string): (r: string)
    ensures |r| == |s|
    ensures forall i :: 0 <= i < |s| ==> r[i] == LowerChar(s[i])
  {
    if s == [] then [] else [LowerChar(s[0])] + ToLower(s[1..])
  }

  /** A string with no upper-case ASCII letter: lower-casing leaves it as it is. */
  predicate IsLower(s: string) { forall i :: 0 <= i < |s| ==> !IsUpperAscii(s[i]) }

  lemma {:induction false} ToLowerOfLower(s: string)
    requires IsLower(s)
    ensures ToLower(s) == s
  {
    if s != [] {
      ToLowerOfLower(s[1..]);
    }
  }

  /** Lower-casing is idempotent, so a lower-cased alias looks itself up. */
  lemma ToLowerIdempotent(s: string)
    ensures IsLower(ToLower(s))
    ensures ToLower(ToLower(s)) == ToLower(s)
  {
    ToLowerOfLower(ToLower(s));
  }

  // ---------------------------------------------------------------------------
  // Joining and searching

  /** Array.prototype.join(sep) on a list of strings. */
  function Join(xs: seq<string>, sep: string): (r: string)
    ensures xs == [] ==> r == []
    ensures xs != [] ==> |r| >= |xs[|xs| - 1]| && xs[0] <= r && r[|r| - |xs[|xs| - 1]|..] == xs[|xs| - 1]
    ensures |xs| > 1 ==> |r| >= |xs[0]| + |sep| + |xs[|xs| - 1]| && r[|xs[0]|..|xs[0]| + |sep|] == sep
  {
    if xs == [] then []
    else if |xs| == 1 then xs[0]
    else xs[0] + sep + Join(xs[1..], sep)
  }

  /** t occurs in s as a contiguous substring. */
  predicate Contains(s: string, t: string)
  {
    exists p :: 0 <= p <= |s| && t <= s[p..]
  }

  lemma ContainsAfterPrefix(u: string, s: string, t: string)
    requires Contains(s, t)
    ensures Contains(u + s, t)
  {
    var p :| 0 <= p <= |s| && t <= s[p..];
    assert (u + s)[|u| + p..] == s[p..];
  }

  /** Every element of a list appears in its join, whatever the separator. */
  lemma {:induction false} JoinContainsEach(xs: seq<string>, sep: string, i: nat)
    requires i < |xs|
    ensures Contains(Join(xs, sep), xs[i])
  {
    if |xs| == 1 || i == 0 {
      assert xs[i] <= Join(xs, sep)[0..];
    } else {
      JoinContainsEach(xs[1..], sep, i - 1);
      ContainsAfterPrefix(xs[0] + sep, Join(xs[1..], sep), xs[i]);
    }
  }

  // ---------------------------------------------------------------------------
  // Decimal digits

  predicate IsDigit(c: char) { '0' <= c <= '9' }

  predicate IsDigits(s: string) { forall i :: 0 <= i < |s| ==> IsDigit(s[i]) }

  function DigitValue(c: char): (v: nat)
    requires IsDigit(c)
    ensures v < 10
  {
    c as int - '0' as int
  }

  function DigitChar(d: nat): (c: char)
    requires d < 10
    ensures IsDigit(c) && DigitValue(c) == d
  {
    ('0' as int + d) as char
  }

  function Pow10(k: nat): (p: nat)
    ensures p >= 1
  {
    if k == 0 then 1 else 10 * Pow10(k - 1)
  }

  /** The value of a string of decimal digits, most significant first; "" is 0. */
  function DigitsValue(s: string): (v: nat)
    requires IsDigits(s)
    ensures v < Pow10(|s|)
  {
    if s == [] then 0 else 10 * DigitsValue(s[..|s| - 1]) + DigitValue(s[|s| - 1])
  }

  /** One more digit in base k: k·(x·p + y) + d is x·(k·p) + (k·y + d). */
  lemma ShiftArith(k: int, v: int, x: int, y: int, d: int, p: int, q: int, w: int)
    requires v == k * (x * p + y) + d && q == k * p && w == k * y + d
    ensures v == x * q + w
  {
    assert k * (x * p) == x * (k * p);
  }

  /** Appending digits shifts the value of the prefix by the number of digits appended. */
  lemma {:induction false} DigitsValueAppend(a: string, b: string)
    requires IsDigits(a) && IsDigits(b)
    ensures IsDigits(a + b)
    ensures DigitsValue(a + b) == DigitsValue(a) * Pow10(|b|) + DigitsValue(b)
  {
    var ab := a + b;
    assert IsDigits(ab);
    if b != [] {
      var b' := b[..|b| - 1];
      var last := b[|b| - 1];
      assert ab[..|ab| - 1] == a + b';
      assert ab[|ab| - 1] == last;
      DigitsValueAppend(a, b');
      assert DigitsValue(ab) == 10 * DigitsValue(a + b') + DigitValue(last);
      assert DigitsValue(b) == 10 * DigitsValue(b') + DigitValue(last);
      assert Pow10(|b|) == 10 * Pow10(|b'|);
      ShiftArith(10, DigitsValue(ab), DigitsValue(a), DigitsValue(b'), DigitValue(last),
        Pow10(|b'|), Pow10(|b|), DigitsValue(b));
    } else {
      assert ab == a;
    }
  }

  /** Leading zeros do not change the value. */
  lemma {:induction false} DigitsValueZeros(k: nat)
    ensures IsDigits(Zeros(k)) && DigitsValue(Zeros(k)) == 0
  {
    if k > 0 {
      assert Zeros(k)[..k - 1] == Zeros(k - 1);
      DigitsValueZeros(k - 1);
    }
  }

  function Zeros(k: nat): (z: string)
    ensures |z| == k
    ensures forall i :: 0 <= i < k ==> z[i] == '0'
  {
    if k == 0 then [] else Zeros(k - 1) + ['0']
  }

  /** BigInt.prototype.toString in base 10, for non-negative values. */
  function NatToString(n: nat): (s: string)
    ensures |s| >= 1 && IsDigits(s)
  {
    if n < 10 then [DigitChar(n)] else NatToString(n / 10) + [DigitChar(n % 10)]
  }

  /** The rendering of a number reads back as that number, without leading zeros. */
  lemma {:induction false} NatToStringRoundTrip(n: nat)
    ensures DigitsValue(NatToString(n)) == n
    ensures n > 0 ==> NatToString(n)[0] != '0'
  {
    if n >= 10 {
      var s := NatToString(n / 10);
      NatToStringRoundTrip(n / 10);
      assert (s + [DigitChar(n % 10)])[..|s|] == s;
    }
  }

  // ---------------------------------------------------------------------------
  // Hexadecimal digits

  predicate IsHexDigit(c: char) { IsDigit(c) || 'a' <= c <= 'f' || 'A' <= c <= 'F' }

  predicate IsHexDigits(s: string) { forall i :: 0 <= i < |s| ==> IsHexDigit(s[i]) }

  function HexDigitValue(c: char): (v: nat)
    requires IsHexDigit(c)
    ensures v < 16
  {
    if IsDigit(c) then DigitValue(c)
    else if 'a' <= c <= 'f' then c as int - 'a' as int + 10
    else c as int - 'A' as int + 10
  }

  function Pow16(k: nat): (p: nat)
    ensures p >= 1
  {
    if k == 0 then 1 else 16 * Pow16(k - 1)
  }

  /** The value of a string of hexadecimal digits, most significant first; "" is 0. */
  function HexValue(s: string): (v: nat)
    requires IsHexDigits(s)
    ensures v < Pow16(|s|)
  {
    if s == [] then 0 else 16 * HexValue(s[..|s| - 1]) + HexDigitValue(s[|s| - 1])
  }

  /** Appending hexadecimal digits shifts the value of the prefix by four bits per digit. */
  lemma {:induction false} HexValueAppend(a: string, b: string)
    requires IsHexDigits(a) && IsHexDigits(b)
    ensures IsHexDigits(a + b)
    ensures HexValue(a + b) == HexValue(a) * Pow16(|b|) + HexValue(b)
  {
    if b == [] {
      assert a + b == a;
    } else {
      var b' := b[..|b| - 1];
      var last := b[|b| - 1];
      var ab' := a + b';
      assert a + b == ab' + [last] && b == b' + [last];
      HexValueAppend(a, b');
      HexValueSnoc(ab', last);
      HexValueSnoc(b', last);
      var d := HexDigitValue(last);
      var v, x, y := HexValue(a + b), HexValue(a), HexValue(b');
      assert v == 16 * HexValue(ab') + d;
      assert HexValue(b) == 16 * y + d;
      assert Pow16(|b|) == 16 * Pow16(|b'|);
      ShiftArith(16, v, x, y, d, Pow16(|b'|), Pow16(|b|), HexValue(b));
    }
  }

  /** One more digit: the value so far times 16, plus the digit. */
  lemma HexValueSnoc(s: string, c: char)
    requires IsHexDigits(s) && IsHexDigit(c)
    ensures IsHexDigits(s + [c])
    ensures HexValue(s + [c]) == 16 * HexValue(s) + HexDigitValue(c)
  {
    assert (s + [c])[..|s|] == s;
  }
}
