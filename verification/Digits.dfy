/** Decimal digits: the plain mathematics behind the integer printing and
parsing libraries that the source calls. */
module Digits {
  import opened Results

  predicate IsDigit(c: char) {
    '0' <= c <= '9'
  }

  predicate AllDigits(s: string) {
    forall i :: 0 <= i < |s| ==> IsDigit(s[i])
  }

  function DigitChar(d: nat): (c: char)
    requires d < 10
    ensures IsDigit(c)
  {
    ('0' as int + d) as char
  }

  function DigitOf(c: char): (d: nat)
    requires IsDigit(c)
    ensures d < 10
  {
    c as int - '0' as int
  }

  /** The number that a string of digits denotes. */
  function NatOf(s: string): nat
    requires AllDigits(s)
  {
    if s == "" then 0 else NatOf(s[..|s| - 1]) * 10 + DigitOf(s[|s| - 1])
  }

  /** The shortest digits denoting `n`. */
  function DecOf(n: nat): (s: string)
    ensures AllDigits(s) && s != ""
  {
    if n < 10 then [DigitChar(n)] else DecOf(n / 10) + [DigitChar(n % 10)]
  }

  function Zeros(n: nat): (s: string)
    ensures |s| == n && AllDigits(s)
    ensures forall i :: 0 <= i < n ==> s[i] == '0'
  {
    seq(n, _ => '0')
  }

  /** `DecOf(n)` padded on the left with zeros to at least `width` characters. */
  function Padded(n: nat, width: nat): (s: string)
    ensures AllDigits(s) && |s| >= width && s != ""
  {
    var d := DecOf(n);
    if |d| >= width then d else Zeros(width - |d|) + d
  }

  function Abs(x: int): nat {
    if x < 0 then -x else x
  }

  /** The text of a signed integer. */
  function IntText(v: int): string {
    if v < 0 then "-" + DecOf(-v) else DecOf(v)
  }

  function Pow10(n: nat): (p: nat)
    ensures p > 0
  {
    if n == 0 then 1 else 10 * Pow10(n - 1)
  }

  predicate IsSign(c: char) {
    c == '-' || c == '+'
  }

  /** The library integer parser: an optional sign, at least one digit, and a
  value within bounds. Unsigned types (`lo == 0`) take no minus sign. */
  function ParseInteger(s: string, lo: int, hi: int): Result<int> {
    if s == "" then Err(Rejected)
    else
      var digits := if IsSign(s[0]) then s[1..] else s;
      if digits == "" || !AllDigits(digits) || (s[0] == '-' && lo == 0) then Err(Rejected)
      else
        var v: int := if s[0] == '-' then -(NatOf(digits) as int) else NatOf(digits);
        if lo <= v <= hi then Ok(v) else Err(Rejected)
  }

  const I32_MIN := -0x8000_0000
  const I32_MAX := 0x7FFF_FFFF
  const I64_MIN := -0x8000_0000_0000_0000
  const I64_MAX := 0x7FFF_FFFF_FFFF_FFFF

  lemma {:induction false} NatOfDecOf(n: nat)
    ensures NatOf(DecOf(n)) == n
  {
    if n >= 10 {
      NatOfDecOf(n / 10);
      var s := DecOf(n);
      assert s[..|s| - 1] == DecOf(n / 10);
    }
  }

  /** Digits have no leading zero, unless they are the single digit of zero. */
  lemma {:induction false} DecOfHead(n: nat)
    ensures n == 0 ==> DecOf(n) == "0"
    ensures n > 0 ==> DecOf(n)[0] != '0'
  {
    if n >= 10 {
      DecOfHead(n / 10);
    }
  }

  lemma {:induction false} NatOfConcat(a: string, b: string)
    requires AllDigits(a) && AllDigits(b)
    ensures AllDigits(a + b)
    ensures NatOf(a + b) == NatOf(a) * Pow10(|b|) + NatOf(b)
  {
    if b == "" {
      assert a + b == a;
    } else {
      var b0 := b[..|b| - 1];
      NatOfConcat(a, b0);
      assert (a + b)[..|a + b| - 1] == a + b0;
      assert (NatOf(a) * Pow10(|b0|)) * 10 == NatOf(a) * Pow10(|b|) by {
        MulAssoc(NatOf(a), Pow10(|b0|), 10);
      }
    }
  }

  lemma MulAssoc(a: int, b: int, c: int)
    ensures (a * b) * c == a * (b * c)
  {
  }

  lemma {:induction false} NatOfZeros(n: nat)
    ensures NatOf(Zeros(n)) == 0
  {
    if n > 0 {
      NatOfZeros(n - 1);
      assert Zeros(n)[..n - 1] == Zeros(n - 1);
    }
  }

  lemma {:induction false} NatOfBound(s: string)
    requires AllDigits(s)
    ensures NatOf(s) < Pow10(|s|)
  {
    if s != "" {
      NatOfBound(s[..|s| - 1]);
    }
  }

  /** The number of digits is the number of digits: no shorter text exists. */
  lemma {:induction false} DecOfLength(n: nat, k: nat)
    requires k > 0
    ensures n < Pow10(k) <==> |DecOf(n)| <= k
  {
    if n < 10 {
      assert Pow10(k) == 10 * Pow10(k - 1);
    } else if k == 1 {
      assert Pow10(1) == 10 * Pow10(0);
    } else {
      DecOfLength(n / 10, k - 1);
    }
  }

  lemma PaddedValue(n: nat, width: nat)
    ensures NatOf(Padded(n, width)) == n
  {
    hide NatOf, DecOf, Zeros;
    NatOfDecOf(n);
    var d := DecOf(n);
    if |d| < width {
      NatOfPrefixedZeros(width - |d|, d);
    }
  }

  lemma NatOfPrefixedZeros(k: nat, s: string)
    requires AllDigits(s)
    ensures NatOf(Zeros(k) + s) == NatOf(s)
  {
    hide NatOf, Pow10;
    NatOfZeros(k);
    NatOfConcat(Zeros(k), s);
    assert 0 * Pow10(|s|) == 0;
  }

  lemma PaddedLength(n: nat, width: nat)
    requires width > 0 && n < Pow10(width)
    ensures |Padded(n, width)| == width
  {
    DecOfLength(n, width);
  }

  lemma ParseIntText(v: int, lo: int, hi: int)
    requires lo <= v <= hi
    ensures ParseInteger(IntText(v), lo, hi) == Ok(v)
  {
    NatOfDecOf(if v < 0 then -v else v);
    var s := IntText(v);
    if v < 0 {
      assert s[1..] == DecOf(-v);
    } else {
      assert IsDigit(s[0]);
    }
  }

  lemma {:induction false} Pow10Add(a: nat, b: nat)
    ensures Pow10(a + b) == Pow10(a) * Pow10(b)
  {
    if a > 0 {
      Pow10Add(a - 1, b);
      MulAssoc(10, Pow10(a - 1), Pow10(b));
    }
  }

  lemma {:induction false} Pow10Monotone(a: nat, b: nat)
    requires a <= b
    ensures Pow10(a) <= Pow10(b)
  {
    if a < b {
      Pow10Monotone(a, b - 1);
    }
  }

  /** The digits of ASCII. */
  lemma AsciiDigits(c: char)
    ensures IsDigit(c) <==> 48 <= c as int <= 57
    ensures IsDigit(c) ==> DigitOf(c) == c as int - 48
  {
  }

  /** An integer text is a sign or none and then digits, however many zeros lead them; a minus
  is refused where there are no negative numbers, and so is what is out of bounds. */
  lemma ParseIntegerIs(sign: string, digits: string, lo: int, hi: int)
    requires sign in ["", "+", "-"] && digits != "" && AllDigits(digits)
    ensures var v: int := if sign == "-" then -(NatOf(digits) as int) else NatOf(digits);
            ParseInteger(sign + digits, lo, hi) ==
            if lo <= v <= hi && !(sign == "-" && lo == 0) then Ok(v) else Err(Rejected)
  {
    var s := sign + digits;
    if sign == "" {
      assert s == digits && IsDigit(s[0]);
    } else {
      assert s[0] == sign[0] && s[1..] == digits;
    }
  }

  /** Any other text is refused. */
  lemma OnlyIntegersParse(s: string, lo: int, hi: int)
    requires s == "" || !AllDigits(s[1..]) || !(IsDigit(s[0]) || (s[0] in "+-" && |s| > 1))
    ensures ParseInteger(s, lo, hi) == Err(Rejected)
  {
    if s != "" && !IsSign(s[0]) {
      assert !IsDigit(s[0]) || !AllDigits(s) by {
        assert forall i :: 1 <= i < |s| ==> s[i] == s[1..][i - 1];
      }
    }
  }
}
