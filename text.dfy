/**
 * String helpers of the JavaScript runtime that the modelled code relies on:
 * the whitespace class shared by `String.prototype.trim` and the regular
 * expression `\s`, trimming, and ASCII decimal digits with their value.
 */
module Text {

  /** The characters JavaScript counts as white space or line terminators. */
  predicate IsWhitespace(c: char) {
    c == ' ' || c == '\t' || c == '\n' || c == '\r' || c == '\U{0B}' || c == '\U{0C}'
    || c == '\U{A0}' || c == '\U{1680}' || ('\U{2000}' <= c <= '\U{200A}')
    || c == '\U{2028}' || c == '\U{2029}' || c == '\U{202F}' || c == '\U{205F}'
    || c == '\U{3000}' || c == '\U{FEFF}'
  }

  predicate NoWhitespace(s: string) {
    forall i :: 0 <= i < |s| ==> !IsWhitespace(s[i])
  }

  /** Drops leading white space. */
  function TrimStart(s: string): (r: string)
    ensures |r| <= |s| && r == s[|s| - |r|..]
    ensures r == [] || !IsWhitespace(r[0])
    ensures forall i :: 0 <= i < |s| - |r| ==> IsWhitespace(s[i])
  {
    if s == [] || !IsWhitespace(s[0]) then s else TrimStart(s[1..])
  }

  /** Drops trailing white space. */
  function TrimEnd(s: string): (r: string)
    ensures |r| <= |s| && r == s[..|r|]
    ensures r == [] || !IsWhitespace(r[|r| - 1])
    ensures forall i :: |r| <= i < |s| ==> IsWhitespace(s[i])
  {
    if s == [] || !IsWhitespace(s[|s| - 1]) then s else TrimEnd(s[..|s| - 1])
  }

  /** `String.prototype.trim`. */
  function Trim(s: string): (r: string)
    ensures r == [] || (!IsWhitespace(r[0]) && !IsWhitespace(r[|r| - 1]))
  {
    TrimEnd(TrimStart(s))
  }

  /** `s.replace(/\s+/g, "")`: every white-space character removed. */
  function StripWhitespace(s: string): (r: string)
    ensures NoWhitespace(r)
    ensures |r| <= |s|
  {
    if s == [] then []
    else if IsWhitespace(s[0]) then StripWhitespace(s[1..])
    else [s[0]] + StripWhitespace(s[1..])
  }

  lemma {:induction false} StripWhitespaceOfClean(s: string)
    requires NoWhitespace(s)
    ensures StripWhitespace(s) == s
  {
    if s != [] {
      StripWhitespaceOfClean(s[1..]);
    }
  }

  /** Removing all white space makes a preceding trim redundant. */
  lemma {:induction false} StripAfterTrim(s: string)
    ensures StripWhitespace(Trim(s)) == StripWhitespace(s)
  {
    var t := TrimStart(s);
    StripDropsLeading(s, |s| - |t|);
    StripDropsTrailing(t, |TrimEnd(t)|);
  }

  lemma {:induction false} StripDropsLeading(s: string, k: nat)
    requires k <= |s|
    requires forall i :: 0 <= i < k ==> IsWhitespace(s[i])
    ensures StripWhitespace(s[k..]) == StripWhitespace(s)
  {
    if k > 0 {
      assert s[1..][k - 1..] == s[k..];
      StripDropsLeading(s[1..], k - 1);
    }
  }

  lemma {:induction false} StripDropsTrailing(s: string, k: nat)
    requires k <= |s|
    requires forall i :: k <= i < |s| ==> IsWhitespace(s[i])
    ensures StripWhitespace(s[..k]) == StripWhitespace(s)
  {
    if k == |s| {
      assert s[..k] == s;
    } else {
      if k == 0 {
        StripAllWhitespace(s);
        assert s[..0] == [];
      } else {
        var t := s[..k];
        assert t[0] == s[0] && t[1..] == s[1..][..k - 1];
        StripDropsTrailing(s[1..], k - 1);

      }
    }
  }

  lemma {:induction false} StripAllWhitespace(s: string)
    requires forall i :: 0 <= i < |s| ==> IsWhitespace(s[i])
    ensures StripWhitespace(s) == []
  {
    if s != [] {
      StripAllWhitespace(s[1..]);
    }
  }

  // ASCII decimal digits, the class `[0-9]` and `\d`

  predicate IsDigit(c: char) {
    '0' <= c <= '9'
  }

  predicate AllDigits(s: string) {
    forall i :: 0 <= i < |s| ==> IsDigit(s[i])
  }

  function DigitValue(c: char): (d: nat)
    requires IsDigit(c)
    ensures d < 10
  {
    c as int - '0' as int
  }

  function DigitChar(d: nat): (c: char)
    requires d < 10
    ensures IsDigit(c) && DigitValue(c) == d
  {
    ('0' as int + d) as char
  }

  /** The base-10 value of a digit string, most significant digit first. */
  function DigitsValue(s: string): (n: nat)
    requires AllDigits(s)
  {
    if s == [] then 0 else 10 * DigitsValue(s[..|s| - 1]) + DigitValue(s[|s| - 1])
  }

  function Pow10(k: nat): (p: nat)
    ensures p >= 1
  {
    if k == 0 then 1 else 10 * Pow10(k - 1)
  }

  /** The shortest decimal rendering of a natural number. */
  function NatToDigits(n: nat): (s: string)
    ensures AllDigits(s) && s != []
    ensures |s| > 1 ==> s[0] != '0'
    ensures DigitsValue(s) == n
  {
    if n < 10 then [DigitChar(n)]
    else
      var s := NatToDigits(n / 10) + [DigitChar(n % 10)];
      assert s[..|s| - 1] == NatToDigits(n / 10);
      s
  }

  lemma {:induction false} DigitsValueBound(s: string)
    requires AllDigits(s)
    ensures DigitsValue(s) < Pow10(|s|)
  {
    if s != [] {
      DigitsValueBound(s[..|s| - 1]);
    }
  }

  /** Leading zeros do not change the value. */
  lemma {:induction false} LeadingZero(s: string)
    requires AllDigits(s)
    ensures AllDigits("0" + s) && DigitsValue("0" + s) == DigitsValue(s)
  {
    if s != [] {
      var t := "0" + s;
      assert t[..|t| - 1] == "0" + s[..|s| - 1];
      LeadingZero(s[..|s| - 1]);
    }
  }
}
