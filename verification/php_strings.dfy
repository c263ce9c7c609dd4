/**
  The PHP string built-ins that MergeCommand relies on: truthiness of a string,
  trim/ltrim/rtrim, strtr with one single-character pair, the decimal form of
  an integer (as strlen() and str_pad() see it) and str_pad(..., STR_PAD_LEFT).
*/
module PhpStrings {

  /** How PHP reads a string as a boolean: only "" and "0" are false. */
  predicate Truthy(s: string) {
    s != "" && s != "0"
  }

  /** The characters trim() and ltrim() strip when given no character list. */
  const WhitespaceChars: set<char> := {' ', '\t', '\n', '\r', '\0', '\U{B}'}

  predicate AllIn(s: string, cs: set<char>) {
    forall i :: 0 <= i < |s| ==> s[i] in cs
  }

  /** ltrim($s, $cs): drops the longest prefix made of characters in cs. */
  function TrimLeft(s: string, cs: set<char>): (r: string)
    ensures |r| <= |s| && r == s[|s| - |r|..]
    ensures AllIn(s[..|s| - |r|], cs)
    ensures r == [] || r[0] !in cs
  {
    if s != [] && s[0] in cs then
      var r := TrimLeft(s[1..], cs);
      assert s[..|s| - |r|] == [s[0]] + s[1..][..|s| - 1 - |r|];
      r
    else
      s
  }

  /** rtrim($s, $cs): drops the longest suffix made of characters in cs. */
  function TrimRight(s: string, cs: set<char>): (r: string)
    ensures |r| <= |s| && r == s[..|r|]
    ensures AllIn(s[|r|..], cs)
    ensures r == [] || r[|r| - 1] !in cs
  {
    if s != [] && s[|s| - 1] in cs then
      var r := TrimRight(s[..|s| - 1], cs);
      assert s[|r|..] == s[..|s| - 1][|r|..] + [s[|s| - 1]];
      r
    else
      s
  }

  /** trim($s): strips whitespace from both ends. */
  function Trim(s: string): (r: string)
    ensures r == [] || (r[0] !in WhitespaceChars && r[|r| - 1] !in WhitespaceChars)
  {
    TrimRight(TrimLeft(s, WhitespaceChars), WhitespaceChars)
  }

  /** strtr($s, [from => to]) for one pair of single characters. */
  function ReplaceChar(s: string, from: char, to: char): (r: string)
    ensures |r| == |s|
    ensures from != to ==> from !in r
  {
    seq(|s|, i requires 0 <= i < |s| => if s[i] == from then to else s[i])
  }

  /** A character that occurs in neither part does not occur in their concatenation. */
  lemma NotInConcat(c: char, a: string, b: string)
    requires c !in a && c !in b
    ensures c !in a + b
  {
  }

  lemma ConcatAssoc(a: string, b: string, c: string)
    ensures a + b + c == a + (b + c)
  {
  }

  predicate IsDigit(c: char) {
    '0' <= c <= '9'
  }

  predicate AllDigits(s: string) {
    forall i :: 0 <= i < |s| ==> IsDigit(s[i])
  }

  function DigitChar(d: nat): (c: char)
    requires d < 10
    ensures IsDigit(c)
  {
    (48 + d) as char
  }

  function DigitValue(c: char): (d: nat)
    requires IsDigit(c)
    ensures d < 10
  {
    c as int - 48
  }

  /** The number a string of decimal digits denotes (leading zeros allowed). */
  function DigitsValue(s: string): nat
    requires AllDigits(s)
  {
    if s == [] then 0 else DigitsValue(s[..|s| - 1]) * 10 + DigitValue(s[|s| - 1])
  }

  /** How PHP writes a non-negative integer as a string. */
  function NatToString(n: nat): (r: string)
    ensures |r| >= 1 && AllDigits(r)
    decreases n
  {
    if n < 10 then [DigitChar(n)] else NatToString(n / 10) + [DigitChar(n % 10)]
  }

  /** How PHP writes an integer as a string. */
  function IntToString(i: int): string {
    if i < 0 then "-" + NatToString(-i) else NatToString(i)
  }

  /** Reading back the decimal form of n gives n. */
  lemma {:induction false} NatToStringValue(n: nat)
    ensures DigitsValue(NatToString(n)) == n
    decreases n
  {
    if n >= 10 {
      NatToStringValue(n / 10);
      var s := NatToString(n);
      assert s[..|s| - 1] == NatToString(n / 10);
    }
  }

  /** A larger number never has a shorter decimal form. */
  lemma {:induction false} NatToStringLengthMonotone(m: nat, n: nat)
    requires m <= n
    ensures |NatToString(m)| <= |NatToString(n)|
    decreases n
  {
    if m >= 10 {
      NatToStringLengthMonotone(m / 10, n / 10);
    }
  }

  function Repeat(c: char, k: nat): (r: string)
    ensures |r| == k && AllIn(r, {c})
  {
    if k == 0 then [] else Repeat(c, k - 1) + [c]
  }

  /** str_pad($s, $len, $c, STR_PAD_LEFT): pads on the left up to len, never truncates. */
  function StrPadLeft(s: string, len: nat, c: char): (r: string)
    ensures |r| == if |s| < len then len else |s|
  {
    if |s| >= len then s else Repeat(c, len - |s|) + s
  }

  /** The padded string ends with s, and everything in front of s is the pad character. */
  lemma StrPadLeftLayout(s: string, len: nat, c: char)
    ensures var r := StrPadLeft(s, len, c);
      r[|r| - |s|..] == s && AllIn(r[..|r| - |s|], {c})
  {
    var r := StrPadLeft(s, len, c);
    if |s| < len {
      assert r[..|r| - |s|] == Repeat(c, len - |s|);
    }
  }

  /** Leading zeros do not change the value of a digit string. */
  lemma {:induction false} LeadingZerosValue(k: nat, s: string)
    requires AllDigits(s)
    ensures AllDigits(Repeat('0', k) + s)
    ensures DigitsValue(Repeat('0', k) + s) == DigitsValue(s)
    decreases k + |s|
  {
    var z := Repeat('0', k) + s;
    assert AllDigits(z) by {
      forall i | 0 <= i < |z| ensures IsDigit(z[i]) {
        if i < k {
          assert z[i] == Repeat('0', k)[i];
        } else {
          assert z[i] == s[i - k];
        }
      }
    }
    if s == [] {
      if k > 0 {
        assert z[..|z| - 1] == Repeat('0', k - 1) + [];
        assert z[|z| - 1] == '0';
        LeadingZerosValue(k - 1, []);
      }
    } else {
      assert z[..|z| - 1] == Repeat('0', k) + s[..|s| - 1];
      LeadingZerosValue(k, s[..|s| - 1]);
    }
  }

  /** Padding a digit string with zeros up to a width keeps it a digit string of that width with the same value. */
  lemma ZeroPaddingValue(s: string, width: nat)
    requires AllDigits(s) && |s| <= width
    ensures var r := StrPadLeft(s, width, '0');
      |r| == width && AllDigits(r) && DigitsValue(r) == DigitsValue(s)
  {
    if |s| < width {
      LeadingZerosValue(width - |s|, s);
    }
  }

  /** Two digit strings of one length with the same value are the same string. */
  lemma {:induction false} DigitsValueInjective(a: string, b: string)
    requires AllDigits(a) && AllDigits(b) && |a| == |b|
    requires DigitsValue(a) == DigitsValue(b)
    ensures a == b
  {
    if a != [] {
      var a', b' := a[..|a| - 1], b[..|b| - 1];
      assert DigitValue(a[|a| - 1]) == DigitValue(b[|b| - 1]) && DigitsValue(a') == DigitsValue(b');
      DigitsValueInjective(a', b');
      assert a == a' + [a[|a| - 1]] && b == b' + [b[|b| - 1]];
    }
  }

  /** Byte-wise (strcmp) ordering of strings: a sorts strictly before b at some position. */
  predicate LexLess(a: string, b: string) {
    exists k :: 0 <= k < |a| && k < |b| && a[..k] == b[..k] && a[k] < b[k]
  }

  /** For digit strings of one length, numeric order and byte-wise order agree. */
  lemma {:induction false} ValueOrderIsLexOrder(a: string, b: string)
    requires AllDigits(a) && AllDigits(b) && |a| == |b|
    requires DigitsValue(a) < DigitsValue(b)
    ensures LexLess(a, b)
  {
    var n := |a|;
    var a', b' := a[..n - 1], b[..n - 1];
    var x, y := DigitValue(a[n - 1]), DigitValue(b[n - 1]);
    assert DigitsValue(a) == DigitsValue(a') * 10 + x;
    assert DigitsValue(b) == DigitsValue(b') * 10 + y;
    if DigitsValue(a') < DigitsValue(b') {
      ValueOrderIsLexOrder(a', b');
      var k :| 0 <= k < |a'| && k < |b'| && a'[..k] == b'[..k] && a'[k] < b'[k];
      assert a[..k] == a'[..k] && b[..k] == b'[..k];
      assert a[k] == a'[k] && b[k] == b'[k];
    } else if DigitsValue(a') == DigitsValue(b') {
      DigitsValueInjective(a', b');
      assert a[..n - 1] == b[..n - 1];
      assert a[n - 1] < b[n - 1];
    }
  }
}
