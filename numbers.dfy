/**
 * Kotlin `Int` conversions: `String.toInt()` (which is Java's
 * `Integer.parseInt`), decimal rendering of naturals, zero padding, and the
 * 32-bit wrap-around of `Int` arithmetic.
 */
module Numbers {
  import opened Wrappers
  import opened Strings

  const INT_MIN: int := -0x8000_0000
  const INT_MAX: int := 0x7fff_ffff

  /** The value a Kotlin `Int` expression has when its exact result is `x`. */
  function Wrap32(x: int): (r: int)
    ensures INT_MIN <= r <= INT_MAX
    ensures (r - x) % 0x1_0000_0000 == 0
    ensures INT_MIN <= x <= INT_MAX ==> r == x
  {
    (x - INT_MIN) % 0x1_0000_0000 + INT_MIN
  }

  predicate IsDigit(c: char) {
    '0' <= c <= '9'
  }

  predicate AllDigits(s: string) {
    forall k :: 0 <= k < |s| ==> IsDigit(s[k])
  }

  function DigitValue(c: char): nat
    requires IsDigit(c)
  {
    c as int - '0' as int
  }

  function DigitChar(d: nat): char
    requires d < 10
  {
    ('0' as int + d) as char
  }

  /** The value of a string of decimal digits, most significant first. */
  function DigitsValue(s: string): nat
    requires AllDigits(s)
    decreases |s|
  {
    if s == [] then 0 else DigitsValue(s[..|s| - 1]) * 10 + DigitValue(s[|s| - 1])
  }

  /**
   * `s.toInt()`: an optional `+` or `-`, then at least one ASCII digit, and a
   * value that fits in an `Int`; anything else is a `NumberFormatException`,
   * here `None`.
   */
  function ParseInt(s: string): (r: Option<int>)
    ensures r.Some? ==> INT_MIN <= r.value <= INT_MAX
    ensures r.Some? ==> |s| >= 1 && (IsDigit(s[0]) || s[0] == '+' || s[0] == '-') && AllDigits(s[1..])
    ensures r.Some? && r.value < 0 ==> s[0] == '-'
  {
    if s == [] then None
    else
      var body := if s[0] == '-' || s[0] == '+' then s[1..] else s;
      if body == [] || !AllDigits(body) then None
      else
        var v: int := if s[0] == '-' then -(DigitsValue(body) as int) else DigitsValue(body);
        if INT_MIN <= v <= INT_MAX then Some(v) else None
  }

  /** The decimal digits of `n`, without leading zeros. */
  function NatToString(n: nat): (r: string)
    ensures |r| >= 1 && AllDigits(r)
    ensures DigitsValue(r) == n
    ensures n < 10 ==> |r| == 1
    ensures n < 100 ==> |r| <= 2
    ensures n >= 10 ==> |r| >= 2
    ensures n >= 1000 ==> |r| >= 4
    ensures n >= 1 ==> r[0] != '0'
    decreases n
  {
    if n < 10 then [DigitChar(n)]
    else
      var r := NatToString(n / 10) + [DigitChar(n % 10)];
      assert r[..|r| - 1] == NatToString(n / 10);
      r
  }

  /** `s` left-padded with `'0'` to at least `width` characters. */
  function ZeroPad(s: string, width: nat): string {
    if |s| < width then Repeat('0', width - |s|) + s else s
  }

  lemma {:induction false} ZerosValue(n: nat)
    ensures AllDigits(Repeat('0', n)) && DigitsValue(Repeat('0', n)) == 0
  {
    if n > 0 {
      ZerosValue(n - 1);
      assert Repeat('0', n)[..n - 1] == Repeat('0', n - 1);
    }
  }

  /** Leading zeros do not change the value of a digit string. */
  lemma {:induction false} LeadingZerosValue(k: nat, s: string)
    requires AllDigits(s)
    ensures AllDigits(Repeat('0', k) + s)
    ensures DigitsValue(Repeat('0', k) + s) == DigitsValue(s)
    decreases |s|
  {
    var t := Repeat('0', k) + s;
    if s == [] {
      ZerosValue(k);
      assert t == Repeat('0', k);
    } else {
      LeadingZerosValue(k, s[..|s| - 1]);
      assert t[..|t| - 1] == Repeat('0', k) + s[..|s| - 1];
    }
  }

  /** An unsigned digit string that fits in an `Int` parses to its value. */
  lemma ParseDigits(s: string)
    requires |s| >= 1 && AllDigits(s) && DigitsValue(s) <= INT_MAX
    ensures ParseInt(s) == Some(DigitsValue(s))
  {
  }

  /** `toInt()` accepts a leading `+`. */
  lemma ParsePlusDigits(s: string)
    requires |s| >= 1 && AllDigits(s) && DigitsValue(s) <= INT_MAX
    ensures ParseInt("+" + s) == Some(DigitsValue(s))
  {
    assert ("+" + s)[1..] == s;
  }

  /** Every rendered natural that fits in an `Int` parses back to itself, also zero-padded. */
  lemma ParseNatToString(n: nat, width: nat)
    requires n <= INT_MAX
    ensures ParseInt(NatToString(n)) == Some(n)
    ensures ParseInt(ZeroPad(NatToString(n), width)) == Some(n)
  {
    var s := NatToString(n);
    ParseDigits(s);
    var k := if |s| < width then width - |s| else 0;
    var t := ZeroPad(s, width);
    assert t == Repeat('0', k) + s;
    LeadingZerosValue(k, s);
    ParseDigits(t);
  }
}
