/** Decimal text for integers: Python's `str(int)`, Python's `int(str)` on
    the inputs the bot feeds it, and the fixed-width zero-padded digit
    groups that `strftime` writes for `%Y`, `%m` and `%d`. */
module Decimal {
  import opened Wrappers

  predicate IsDigit(c: char) {
    '0' <= c <= '9'
  }

  predicate AllDigits(s: string) {
    forall i :: 0 <= i < |s| ==> IsDigit(s[i])
  }

  function DigitChar(d: nat): (c: char)
    requires d < 10
    ensures IsDigit(c)
  {
    ('0' as int + d) as char
  }

  function DigitValue(c: char): (d: nat)
    requires IsDigit(c)
    ensures d < 10 && DigitChar(d) == c
  {
    c as int - '0' as int
  }

  function Pow10(k: nat): (p: nat)
    ensures p >= 1
  {
    if k == 0 then 1 else 10 * Pow10(k - 1)
  }

  /** The value of a string of decimal digits, most significant first. */
  function DigitsToNat(s: string): nat
    requires AllDigits(s)
  {
    if s == [] then 0 else 10 * DigitsToNat(s[..|s| - 1]) + DigitValue(s[|s| - 1])
  }

  /** The shortest decimal digits of `n`, as Python's `str` writes a
      non-negative int: no leading zero except for `0` itself. */
  function NatToDigits(n: nat): (s: string)
    ensures |s| >= 1 && AllDigits(s)
    ensures |s| > 1 ==> s[0] != '0'
  {
    if n < 10 then [DigitChar(n)] else NatToDigits(n / 10) + [DigitChar(n % 10)]
  }

  lemma {:induction false} NatToDigitsValue(n: nat)
    ensures DigitsToNat(NatToDigits(n)) == n
  {
    var s := NatToDigits(n);
    if n >= 10 {
      NatToDigitsValue(n / 10);
      assert s[..|s| - 1] == NatToDigits(n / 10);
    }
  }

  /** Python's `str(n)` for an int `n`. */
  function IntToDecimal(n: int): (s: string)
    ensures |s| >= 1
    ensures '_' !in s
    ensures n >= 0 <==> IsDigit(s[0])
  {
    if n < 0 then "-" + NatToDigits(-n) else NatToDigits(n)
  }

  /** Python's `int(s)` for a str `s`, restricted to an optional sign
      followed by one or more ASCII digits; anything else raises
      `ValueError`, here `None`. */
  function ParseInt(s: string): (r: Option<int>)
    ensures r.Some? <==> (s != [] && AllDigits(s))
                         || (|s| >= 2 && (s[0] == '-' || s[0] == '+') && AllDigits(s[1..]))
    ensures s != [] && AllDigits(s) ==> r == Some(DigitsToNat(s))
    ensures |s| >= 2 && s[0] == '-' && AllDigits(s[1..]) ==> r == Some(-(DigitsToNat(s[1..]) as int))
  {
    if |s| >= 1 && (s[0] == '-' || s[0] == '+') then
      var body := s[1..];
      if body != [] && AllDigits(body) then
        var v: int := DigitsToNat(body);
        Some(if s[0] == '-' then -v else v)
      else None
    else if s != [] && AllDigits(s) then Some(DigitsToNat(s))
    else None
  }

  /** `int(str(n)) == n` for every int `n`. */
  lemma {:induction false} ParseIntRoundTrip(n: int)
    ensures ParseInt(IntToDecimal(n)) == Some(n)
  {
    var s := IntToDecimal(n);
    if n < 0 {
      var digits := NatToDigits(-n);
      NatToDigitsValue(-n);
      assert s[0] == '-' && s[1..] == digits;
    } else {
      NatToDigitsValue(n);
      assert s[0] != '-' && s[0] != '+';
    }
  }

  /** `n` written in exactly `width` digits, zero-padded on the left
      (`strftime`'s `%m` and `%d`, and `%Y` for four-digit years). */
  function PadDigits(n: nat, width: nat): (s: string)
    requires n < Pow10(width)
    ensures |s| == width && AllDigits(s)
  {
    if width == 0 then [] else PadDigits(n / 10, width - 1) + [DigitChar(n % 10)]
  }

  lemma {:induction false} PadDigitsValue(n: nat, width: nat)
    requires n < Pow10(width)
    ensures DigitsToNat(PadDigits(n, width)) == n
  {
    if width > 0 {
      var s := PadDigits(n, width);
      PadDigitsValue(n / 10, width - 1);
      assert s[..|s| - 1] == PadDigits(n / 10, width - 1);
    }
  }

  /** A digit string of width `w` is the padded form of its own value. */
  lemma {:induction false} DigitsToNatPadded(t: string)
    requires AllDigits(t)
    ensures DigitsToNat(t) < Pow10(|t|)
    ensures PadDigits(DigitsToNat(t), |t|) == t
  {
    if t != [] {
      var init := t[..|t| - 1];
      DigitsToNatPadded(init);
      var d := DigitValue(t[|t| - 1]);
      assert (10 * DigitsToNat(init) + d) / 10 == DigitsToNat(init);
      assert (10 * DigitsToNat(init) + d) % 10 == d;
      assert t == init + [t[|t| - 1]];
    }
  }
}
