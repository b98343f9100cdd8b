/** Decimal numerals, as produced by Python's `str` of an integer and read back by `int`. */
module Text {
  import opened Wrappers

  predicate IsDigit(c: char) { '0' <= c <= '9' }

  predicate AllDigits(s: string) { forall i | 0 <= i < |s| :: IsDigit(s[i]) }

  function DigitChar(d: nat): (c: char)
    requires d < 10
    ensures IsDigit(c) && (c as int) - ('0' as int) == d
  {
    ((('0' as int) + d) as char)
  }

  function DigitValue(c: char): (d: nat)
    requires IsDigit(c)
    ensures d < 10
  {
    (c as int) - ('0' as int)
  }

  /** `str(n)` for a non-negative integer. */
  function NatToString(n: nat): (s: string)
    ensures |s| > 0 && AllDigits(s)
    decreases n
  {
    if n < 10 then [DigitChar(n)] else NatToString(n / 10) + [DigitChar(n % 10)]
  }

  /** `str(i)` for any integer. */
  function IntToString(i: int): (s: string)
    ensures |s| > 0
    ensures (s[0] == '-') <==> i < 0
  {
    if i < 0 then "-" + NatToString(-i) else NatToString(i)
  }

  /** The value of a non-empty string of decimal digits. */
  function DigitsValue(s: string): nat
    requires AllDigits(s)
  {
    if s == [] then 0 else DigitsValue(s[..|s| - 1]) * 10 + DigitValue(s[|s| - 1])
  }

  /** `int(s)` restricted to plain numerals: `None` for anything but a plain numeral. */
  function ParseNat(s: string): (r: Option<nat>)
    ensures r.Some? <==> |s| > 0 && AllDigits(s)
  {
    if |s| > 0 && AllDigits(s) then Some(DigitsValue(s)) else None
  }

  lemma {:induction false} NatToStringValue(n: nat)
    ensures DigitsValue(NatToString(n)) == n
    decreases n
  {
    if n >= 10 {
      var s := NatToString(n / 10) + [DigitChar(n % 10)];
      assert s[..|s| - 1] == NatToString(n / 10);
      NatToStringValue(n / 10);
    }
  }

  /** Reading back what `str` wrote gives the number again. */
  lemma ParseNatToString(n: nat)
    ensures ParseNat(NatToString(n)) == Some(n)
  {
    NatToStringValue(n);
  }

  /** Two numerals denote the same number only if they are the same numeral. */
  lemma NatToStringInjective(n: nat, m: nat)
    requires NatToString(n) == NatToString(m)
    ensures n == m
  {
    NatToStringValue(n);
    NatToStringValue(m);
  }

  /** The number of decimal digits at the end of `w`. */
  function TrailingDigits(w: string): nat
  {
    if w != [] && IsDigit(w[|w| - 1]) then 1 + TrailingDigits(w[..|w| - 1]) else 0
  }

  lemma {:induction false} TrailingDigitsOfName(p: string, s: string)
    requires AllDigits(s)
    ensures TrailingDigits(p + "_" + s) == |s|
    decreases |s|
  {
    var w := p + "_" + s;
    if s == [] {
      assert w[|w| - 1] == '_';
    } else {
      assert w[..|w| - 1] == p + "_" + s[..|s| - 1];
      TrailingDigitsOfName(p, s[..|s| - 1]);
    }
  }

  /**
   * `p + "_" + s` splits uniquely at its last underscore when `s` is a numeral:
   * the name `<prefix>_<number>` determines both the prefix and the number.
   */
  lemma SplitAtLastUnderscore(p: string, s: string, q: string, t: string)
    requires AllDigits(s) && AllDigits(t)
    requires p + "_" + s == q + "_" + t
    ensures p == q && s == t
  {
    var w := p + "_" + s;
    TrailingDigitsOfName(p, s);
    TrailingDigitsOfName(q, t);
    assert s == w[|w| - |s|..];
    assert t == w[|w| - |t|..];
    assert p == w[..|p|];
    assert q == w[..|q|];
  }
}
