/** Decimal texts: `display_decimal_128`, `display_decimal_256`
(`sql/src/value/format/display.rs`) and `parse_decimal`
(`sql/src/value/string_decoder.rs`). */
module Decimals {
  import opened Results
  import opened Digits
  import opened Cursors
  import opened Schema
  import opened Values

  const I128_MAX := 0x7FFF_FFFF_FFFF_FFFF_FFFF_FFFF_FFFF_FFFF
  const I256_MAX := 0x7FFF_FFFF_FFFF_FFFF_FFFF_FFFF_FFFF_FFFF_FFFF_FFFF_FFFF_FFFF_FFFF_FFFF_FFFF_FFFF

  /** The number of digits that `parse_decimal` keeps. */
  const MAX_DIGITS := 76

  function DivNat(a: nat, b: nat): nat
    requires b > 0
  {
    a / b
  }

  function ModNat(a: nat, b: nat): nat
    requires b > 0
  {
    a % b
  }

  /** The remainder of division that truncates toward zero. */
  function TruncRem(a: int, b: nat): int
    requires b > 0
  {
    if a < 0 then -(ModNat(-a, b) as int) else ModNat(a, b)
  }

  /** The digits after the point, padded to the scale. */
  function FractionDigits(num: int, scale: nat): (f: string)
    ensures AllDigits(f)
  {
    Padded(Abs(TruncRem(num, Pow10(scale))), scale)
  }

  function DisplayDecimal(num: int, scale: nat): string {
    if scale == 0 then IntText(num)
    else if num >= 0 then DecOf(DivNat(num, Pow10(scale))) + "." + FractionDigits(num, scale)
    else "-" + DecOf(DivNat(-num, Pow10(scale))) + "." + FractionDigits(num, scale)
  }

  /** The greatest integer of the variant that a precision selects. */
  function DecimalMax(precision: nat): nat {
    if precision > 38 then I256_MAX else if precision > 19 then I128_MAX else I64_MAX
  }

  /** The variant that a precision selects. */
  function MakeDecimal(value: int, size: DecimalSize): NumberValue {
    if size.precision > 38 then NumberValue.Decimal256(value, size)
    else if size.precision > 19 then NumberValue.Decimal128(value, size)
    else NumberValue.Decimal64(value, size)
  }

  predicate IsPoint(c: char) {
    c == '.'
  }

  predicate IsExp(c: char) {
    c == 'E' || c == 'e'
  }

  predicate IsZero(c: char) {
    c == '0'
  }

  /** The index of the first character satisfying `f`, or the length of `s`. */
  function Find(s: string, f: char -> bool): (n: nat)
    ensures n <= |s|
  {
    PrefixLen(s, c => !f(c))
  }

  /** The integer part, the fraction and the exponent text of a numeral. */
  datatype Parts = Parts(i: string, f: string, e: Option<string>)

  function SplitParts(t: string): Result<Parts> {
    var p1 := Find(t, IsPoint);
    var p2 := Find(t, IsExp);
    if p1 < |t| && p2 < |t| then
      if p1 + 1 <= p2 then Ok(Parts(t[..p1], t[p1 + 1..p2], Some(t[p2 + 1..]))) else Err(Panicked)
    else if p1 < |t| then Ok(Parts(t[..p1], t[p1 + 1..], None))
    else if p2 < |t| then Ok(Parts(t[..p2], "", Some(t[p2 + 1..])))
    else Ok(Parts(t, "", None))
  }

  function ExponentOf(e: Option<string>): Result<int> {
    match e
    case Some(s) => ParseInteger(s, I32_MIN, I32_MAX)
    case None => Ok(0)
  }

  /** The digits that are converted: at most 76 of those written, and the zeros
  of a positive exponent. */
  function BuildDigits(i: string, f: string, exp: int): Result<string> {
    if |i| + exp > I32_MAX then Err(Panicked)
    else if |i| + exp > MAX_DIGITS then Err(Rejected)
    else if |f| - exp > I32_MAX then Err(Panicked)
    else
      var digits := if i + f == "" then "0" else i + f;
      var padded := if |f| < exp then digits + Zeros(exp - |f|) else digits;
      Ok(if |padded| > MAX_DIGITS then padded[..MAX_DIGITS] else padded)
  }

  function ConvertDigits(digits: string, isNegative: bool, size: DecimalSize): Result<NumberValue> {
    var max: int := DecimalMax(size.precision);
    match ParseInteger(digits, -max - 1, max)
    case Err(_) => Err(if size.precision > 38 then Panicked else Rejected)
    case Ok(v) =>
      if !isNegative then Ok(MakeDecimal(v, size))
      else if v == -max - 1 then Err(Panicked)
      else Ok(MakeDecimal(-v, size))
  }

  function ParseDecimal(text: string, size: DecimalSize): Result<NumberValue> {
    if text == "" then Err(Panicked)
    else
      var isNegative := text[0] == '-';
      var unsigned := if isNegative then text[1..] else text;
      var parts :- SplitParts(unsigned[PrefixLen(unsigned, IsZero)..]);
      var exp :- ExponentOf(parts.e);
      FromParts(isNegative, parts.i, parts.f, exp, size)
  }

  function FromParts(isNegative: bool, i: string, f: string, exp: int, size: DecimalSize): Result<NumberValue> {
    var digits :- BuildDigits(i, f, exp);
    ConvertDigits(digits, isNegative, size)
  }

  /** The loops of `parse_decimal`. */
  method ParseDecimalText(text: string, size: DecimalSize) returns (r: Result<NumberValue>)
    ensures r == ParseDecimal(text, size)
  {
    if text == "" {
      return Err(Panicked);
    }
    var start := 0;
    var isNegative := false;
    if text[start] == '-' {
      isNegative := true;
      start := start + 1;
    }
    ghost var unsigned := text[start..];
    start := SkipZeros(text, start);
    assert text[start..] == unsigned[PrefixLen(unsigned, IsZero)..];
    var parts :- SplitParts(text[start..]);
    var exp :- ExponentOf(parts.e);
    var digits :- CollectDigits(parts.i, parts.f, exp);
    r := ConvertDigits(digits, isNegative, size);
  }

  method SkipZeros(text: string, from: nat) returns (start: nat)
    requires from <= |text|
    ensures start == from + PrefixLen(text[from..], IsZero)
  {
    start := from;
    while start < |text| && text[start] == '0'
      invariant from <= start <= |text|
      invariant forall k :: from <= k < start ==> IsZero(text[k])
    {
      start := start + 1;
    }
    assert forall k :: 0 <= k < |text[from..]| ==> text[from..][k] == text[from + k];
    PrefixLenIs(text[from..], IsZero, start - from);
  }

  method CollectDigits(i: string, f: string, exp: int) returns (r: Result<string>)
    ensures r == BuildDigits(i, f, exp)
  {
    if |i| + exp > I32_MAX {
      return Err(Panicked);
    }
    if |i| + exp > MAX_DIGITS {
      return Err(Rejected);
    }
    var digits := i + f;
    if digits == "" {
      digits := digits + "0";
      assert digits == "0";
    }
    var scale := |f| - exp;
    if scale > I32_MAX {
      return Err(Panicked);
    }
    if scale < 0 {
      ghost var written := digits;
      for k := 0 to -scale
        invariant digits == written + Zeros(k)
      {
        digits := digits + "0";
      }
    }
    var precision := if |digits| < MAX_DIGITS then |digits| else MAX_DIGITS;
    assert digits[..|digits|] == digits;
    r := Ok(digits[..precision]);
  }

  /** A signed magnitude in the variant of `size`, if it fits there. */
  function Fitted(isNegative: bool, magnitude: nat, size: DecimalSize): Result<NumberValue> {
    if magnitude <= DecimalMax(size.precision) then
      Ok(MakeDecimal(if isNegative then -(magnitude as int) else magnitude, size))
    else Err(if size.precision > 38 then Panicked else Rejected)
  }

  lemma ConvertPlainDigits(digits: string, isNegative: bool, size: DecimalSize)
    requires AllDigits(digits) && digits != ""
    ensures ConvertDigits(digits, isNegative, size) == Fitted(isNegative, NatOf(digits), size)
  {
    assert IsDigit(digits[0]);
  }

  /** The text of a numeral: sign, leading zeros, integer part, and where present a point
  with a fraction, and an exponent with its letter. */
  function Numeral(isNegative: bool, zeros: nat, i: string, f: Option<string>, e: Option<string>): string {
    (if isNegative then "-" else "") + Zeros(zeros) + i
    + (if f.Some? then "." + f.value else "") + (if e.Some? then e.value else "")
  }

  /** An exponent: either letter, and then digits and signs in any order. */
  predicate IsExponent(e: string) {
    e != "" && e[0] in "eE" && forall k :: 1 <= k < |e| ==> IsDigit(e[k]) || IsSign(e[k])
  }

  /** An exponent without its letter. */
  function ExponentText(e: Option<string>): Option<string> {
    if e.Some? && e.value != "" then Some(e.value[1..]) else None
  }

  predicate NumeralParts(zeros: nat, i: string, f: Option<string>, e: Option<string>) {
    && AllDigits(i) && (i != "" ==> i[0] != '0')
    && (f.Some? ==> AllDigits(f.value))
    && (e.Some? ==> IsExponent(e.value))
    && (zeros > 0 || i != "" || f.Some? || e.Some?)
  }

  function FractionOf(f: Option<string>): string {
    if f.Some? then f.value else ""
  }

  lemma SplitNumeral(i: string, f: Option<string>, e: Option<string>)
    requires NumeralParts(1, i, f, e)
    ensures SplitParts(Numeral(false, 0, i, f, e)) == Ok(Parts(i, FractionOf(f), ExponentText(e)))
  {
    hide Find;
    var t := Numeral(false, 0, i, f, e);
    var fEnd := |i| + if f.Some? then 1 + |f.value| else 0;
    FindInNumeral(i, f, e);
    assert Zeros(0) == "";
    assert t[..|i|] == i;
    assert f.Some? ==> t[|i| + 1..fEnd] == f.value;
    assert e.Some? ==> t[fEnd + 1..] == e.value[1..];
    assert e.None? ==> fEnd == |t|;
    assert f.None? && e.None? ==> t == i;
    assert f.Some? && e.None? ==> t[|i| + 1..] == f.value;
  }

  lemma FindInNumeral(i: string, f: Option<string>, e: Option<string>)
    requires NumeralParts(1, i, f, e)
    ensures var t := Numeral(false, 0, i, f, e);
            var fEnd := |i| + if f.Some? then 1 + |f.value| else 0;
            && Find(t, IsPoint) == (if f.Some? then |i| else |t|)
            && Find(t, IsExp) == fEnd <= |t|
            && (fEnd < |t| <==> e.Some?)
  {
    var t := Numeral(false, 0, i, f, e);
    var fEnd := |i| + if f.Some? then 1 + |f.value| else 0;
    var ft, et := if f.Some? then "." + f.value else "", if e.Some? then e.value else "";
    assert t == i + ft + et;
    FindIs(t, IsPoint, if f.Some? then |i| else |t|);
    FindIs(t, IsExp, fEnd);
  }

  lemma FindIs(t: string, f: char -> bool, n: nat)
    requires n <= |t|
    requires n < |t| ==> f(t[n])
    requires forall k :: 0 <= k < n ==> !f(t[k])
    ensures Find(t, f) == n
  {
    PrefixLenIs(t, c => !f(c), n);
  }

  /** Reading a numeral comes down to its parts. */
  lemma ParseNumeral(isNegative: bool, zeros: nat, i: string, f: Option<string>, e: Option<string>, size: DecimalSize)
    requires NumeralParts(zeros, i, f, e)
    ensures ParseDecimal(Numeral(isNegative, zeros, i, f, e), size) ==
            match ExponentOf(ExponentText(e))
            case Err(x) => Err(x)
            case Ok(exp) => FromParts(isNegative, i, FractionOf(f), exp, size)
  {
    var unsigned := Numeral(false, zeros, i, f, e);
    StripNumeral(isNegative, zeros, i, f, e);
    SplitNumeral(i, f, e);
  }

  /** Sign and leading zeros come off. */
  lemma StripNumeral(isNegative: bool, zeros: nat, i: string, f: Option<string>, e: Option<string>)
    requires NumeralParts(zeros, i, f, e)
    ensures var text := Numeral(isNegative, zeros, i, f, e);
            && text != "" && isNegative == (text[0] == '-')
            && var unsigned := if isNegative then text[1..] else text;
            unsigned[PrefixLen(unsigned, IsZero)..] == Numeral(false, 0, i, f, e)
  {
    hide Numeral, Zeros;
    var t := Numeral(false, 0, i, f, e);
    var unsigned := Zeros(zeros) + t;
    var text := Numeral(isNegative, zeros, i, f, e);
    NumeralShape(isNegative, zeros, i, f, e);
    NumeralHead(zeros, i, f, e);
    assert ("-" + unsigned)[1..] == unsigned && "" + unsigned == unsigned;
    assert unsigned != "" && unsigned[0] != '-';
    StripZeros(zeros, t);
  }

  /** Behind the leading zeros a numeral begins with no zero and no sign. */
  lemma NumeralHead(zeros: nat, i: string, f: Option<string>, e: Option<string>)
    requires NumeralParts(zeros, i, f, e)
    ensures var t := Numeral(false, 0, i, f, e);
            && (t != "" ==> t[0] != '0' && t[0] != '-')
            && (t == "" ==> zeros > 0)
  {
    assert Zeros(0) == "";
    var t := Numeral(false, 0, i, f, e);
    if i != "" {
      assert t[0] == i[0];
    } else if f.Some? {
      assert t[0] == '.';
    } else if e.Some? {
      assert t == e.value;
    }
  }

  lemma StripZeros(k: nat, t: string)
    requires t != "" ==> t[0] != '0'
    ensures (Zeros(k) + t)[PrefixLen(Zeros(k) + t, IsZero)..] == t
  {
    PrefixLenIs(Zeros(k) + t, IsZero, k);
  }

  lemma NumeralShape(isNegative: bool, zeros: nat, i: string, f: Option<string>, e: Option<string>)
    ensures Numeral(isNegative, zeros, i, f, e) ==
            (if isNegative then "-" else "") + (Zeros(zeros) + Numeral(false, 0, i, f, e))
  {
    var ft, et := if f.Some? then "." + f.value else "", if e.Some? then e.value else "";
    assert Zeros(0) == "";
    assert Numeral(false, 0, i, f, e) == i + ft + et;
    FourTexts(if isNegative then "-" else "", Zeros(zeros), i, ft, et);
  }

  lemma FourTexts(a: string, b: string, c: string, d: string, e: string)
    ensures a + b + c + d + e == a + (b + (c + d + e))
  {
  }

  // ---------------------------------------------------------------------------
  // What a numeral means
  // ---------------------------------------------------------------------------

  /** The integer that the digits `i.f` with exponent `exp` are taken for: the
  digits without their point, moved left by the exponent that exceeds the
  fraction. */
  function Scaled(i: string, f: string, exp: int): nat
    requires AllDigits(i + f)
  {
    NatOf(i + f) * Pow10(if exp > |f| then exp - |f| else 0)
  }

  /** The digits past the 76th are dropped only if that many were written and no
  exponent pads them. */
  function Dropped(i: string, f: string, exp: int): nat {
    if exp <= |f| && |i| + |f| > MAX_DIGITS then |i| + |f| - MAX_DIGITS else 0
  }

  lemma BuildDigitsMeaning(i: string, f: string, exp: int)
    requires AllDigits(i) && AllDigits(f)
    requires |i| + exp <= MAX_DIGITS && |f| - exp <= I32_MAX
    ensures AllDigits(i + f)
    ensures var r := BuildDigits(i, f, exp);
            && r.Ok? && AllDigits(r.value) && r.value != ""
            && (i + f != "" && exp > |f| ==> |r.value| == |i| + exp)
            && NatOf(r.value) == DivNat(Scaled(i, f, exp), Pow10(Dropped(i, f, exp)))
  {
    hide Zeros, NatOf, Pow10, DivNat;
    ZerosNone();
    NatOfNothing();
    var digits := if i + f == "" then "0" else i + f;
    var k := if exp > |f| then exp - |f| else 0;
    var padded := digits + Zeros(k);
    assert digits + "" == digits;
    PaddedDigits(digits, k);
    DivByOne(Scaled(i, f, exp));
    if i + f == "" {
      CutZero(padded, k);
    } else if |padded| > MAX_DIGITS {
      CutDigits(padded, MAX_DIGITS);
    }
  }

  lemma PaddedDigits(digits: string, k: nat)
    requires AllDigits(digits)
    ensures NatOf(digits + Zeros(k)) == NatOf(digits) * Pow10(k)
    ensures NatOf(digits) == 0 ==> NatOf(digits) * Pow10(k) == 0
  {
    hide Zeros, NatOf, Pow10;
    NatOfZeros(k);
    NatOfConcat(digits, Zeros(k));
  }

  lemma DivByOne(n: nat)
    ensures DivNat(n, Pow10(0)) == n
  {
  }

  lemma NatOfNothing()
    ensures NatOf("") == NatOf("0") == 0
  {
    assert NatOf("0") == NatOf("0"[..0]) * 10 + DigitOf('0');
  }

  lemma ZerosNone()
    ensures Zeros(0) == ""
  {
  }

  lemma CutZero(padded: string, k: nat)
    requires padded == "0" + Zeros(k)
    ensures NatOf(if |padded| > MAX_DIGITS then padded[..MAX_DIGITS] else padded) == 0
  {
    var n := if |padded| > MAX_DIGITS then MAX_DIGITS else |padded|;
    NatOfZeros(n);
    assert padded[..n] == Zeros(n);
    assert padded[..|padded|] == padded;
  }

  /** Keeping the first `n` digits divides by a power of ten. */
  lemma CutDigits(s: string, n: nat)
    requires AllDigits(s) && n <= |s|
    ensures NatOf(s[..n]) == DivNat(NatOf(s), Pow10(|s| - n))
  {
    hide NatOf, Pow10;
    NatOfConcat(s[..n], s[n..]);
    assert s[..n] + s[n..] == s;
    NatOfBound(s[n..]);
    DivUnique(NatOf(s), Pow10(|s| - n), NatOf(s[..n]), NatOf(s[n..]));
  }

  lemma DivUnique(a: nat, b: nat, q: nat, r: nat)
    requires b > 0 && r < b && a == q * b + r
    ensures a / b == q && a % b == r
  {
    DivModLaw(a, b);
    if q < a / b {
      MulMonotone(q + 1, a / b, b);
    } else if a / b < q {
      MulMonotone(a / b + 1, q, b);
    }
  }

  lemma MulMonotone(x: nat, y: nat, b: nat)
    requires x <= y
    ensures x * b <= y * b
  {
  }

  /** The integer read from the parts of a numeral: refused when more than 76
  digits stand before the point, and otherwise exact, but for digits written past
  the 76th without an exponent that moves the point past them. */
  function Meaning(isNegative: bool, i: string, f: string, exp: int, size: DecimalSize): Result<NumberValue>
    requires AllDigits(i + f)
  {
    if |i| + exp > I32_MAX then Err(Panicked)
    else if |i| + exp > MAX_DIGITS then Err(Rejected)
    else if |f| - exp > I32_MAX then Err(Panicked)
    else Fitted(isNegative, DivNat(Scaled(i, f, exp), Pow10(Dropped(i, f, exp))), size)
  }

  lemma FromPartsMeaning(isNegative: bool, i: string, f: string, exp: int, size: DecimalSize)
    requires AllDigits(i) && AllDigits(f)
    ensures AllDigits(i + f)
    ensures FromParts(isNegative, i, f, exp, size) == Meaning(isNegative, i, f, exp, size)
  {
    if |i| + exp <= MAX_DIGITS && |f| - exp <= I32_MAX {
      BuildDigitsMeaning(i, f, exp);
      ConvertPlainDigits(BuildDigits(i, f, exp).value, isNegative, size);
    }
  }

  /** What `parse_decimal` makes of any numeral: an exponent with either letter, a sign or
  leading zeros counts as the integer that it is read as. */
  lemma DecimalMeaning(isNegative: bool, zeros: nat, i: string, f: Option<string>, e: Option<string>, size: DecimalSize)
    requires NumeralParts(zeros, i, f, e)
    ensures AllDigits(i + FractionOf(f))
    ensures ParseDecimal(Numeral(isNegative, zeros, i, f, e), size) ==
            match ExponentOf(ExponentText(e))
            case Err(x) => Err(x)
            case Ok(exp) => Meaning(isNegative, i, FractionOf(f), exp, size)
  {
    hide ParseDecimal, FromParts, Meaning, ExponentOf, Numeral;
    ParseNumeral(isNegative, zeros, i, f, e, size);
    var exp := ExponentOf(ExponentText(e));
    FromPartsMeaning(isNegative, i, FractionOf(f), if exp.Ok? then exp.value else 0, size);
  }

  /** The digits of the fraction that an exponent leaves behind the point. */
  function FractionLeft(f: string, exp: int): nat {
    if |f| > exp then |f| - exp else 0
  }

  /** `v` over 10 to the `scale` is the number that a numeral denotes: its digits with
  their sign, over 10 to the digits left behind the point. Both sides are brought to
  one denominator. */
  predicate SameNumber(v: int, scale: nat, isNegative: bool, i: string, f: string, exp: int)
    requires AllDigits(i + f)
  {
    var numerator: int := if isNegative then -(Scaled(i, f, exp) as int) else Scaled(i, f, exp);
    v * Pow10(FractionLeft(f, exp)) == numerator * Pow10(scale)
  }

  /** The reader never looks at the declared scale: a numeral that it accepts, without
  dropping a digit, is read as the number that it denotes if and only if it has exactly
  as many digits behind its point as the scale says, or is zero. */
  lemma DecimalExact(isNegative: bool, zeros: nat, i: string, f: Option<string>, e: Option<string>, size: DecimalSize)
    requires NumeralParts(zeros, i, f, e) && ExponentOf(ExponentText(e)).Ok?
    requires ParseDecimal(Numeral(isNegative, zeros, i, f, e), size).Ok?
    requires Dropped(i, FractionOf(f), ExponentOf(ExponentText(e)).value) == 0
    ensures AllDigits(i + FractionOf(f))
    ensures var exp := ExponentOf(ExponentText(e)).value;
            var n := ParseDecimal(Numeral(isNegative, zeros, i, f, e), size).value;
            && !n.Integer? && n.size == size
            && (SameNumber(n.value, size.scale, isNegative, i, FractionOf(f), exp) <==>
                NatOf(i + FractionOf(f)) == 0 || FractionLeft(FractionOf(f), exp) == size.scale)
  {
    hide ParseDecimal, Numeral, ExponentOf, Pow10, NatOf;
    DecimalMeaning(isNegative, zeros, i, f, e, size);
    var exp := ExponentOf(ExponentText(e)).value;
    var digits := Scaled(i, FractionOf(f), exp);
    MeaningInteger(isNegative, i, FractionOf(f), exp, size);
    SameDenominator(if isNegative then -(digits as int) else digits, FractionLeft(FractionOf(f), exp), size.scale);
    ScaledZero(i, FractionOf(f), exp);
  }

  lemma MeaningInteger(isNegative: bool, i: string, f: string, exp: int, size: DecimalSize)
    requires AllDigits(i + f) && Dropped(i, f, exp) == 0 && Meaning(isNegative, i, f, exp, size).Ok?
    ensures var n := Meaning(isNegative, i, f, exp, size).value;
            && !n.Integer? && n.size == size
            && n.value == if isNegative then -(Scaled(i, f, exp) as int) else Scaled(i, f, exp)
  {
    hide Scaled, DivNat, Pow10;
    DivByOne(Scaled(i, f, exp));
  }

  lemma ScaledZero(i: string, f: string, exp: int)
    requires AllDigits(i + f)
    ensures Scaled(i, f, exp) == 0 <==> NatOf(i + f) == 0
  {
    hide NatOf, Pow10;
    var k := if exp > |f| then exp - |f| else 0;
    if NatOf(i + f) > 0 {
      MulMonotone(1, NatOf(i + f), Pow10(k));
    }
  }

  lemma SameDenominator(n: int, a: nat, b: nat)
    ensures n * Pow10(a) == n * Pow10(b) <==> n == 0 || a == b
  {
    hide Pow10;
    if a < b {
      Pow10Grows(a, b);
      MulCancel(n, Pow10(a), Pow10(b));
    } else if b < a {
      Pow10Grows(b, a);
      MulCancel(n, Pow10(b), Pow10(a));
    }
  }

  lemma Pow10Grows(a: nat, b: nat)
    requires a < b
    ensures Pow10(a) < Pow10(b)
  {
    assert Pow10(a + 1) == 10 * Pow10(a);
    Pow10Monotone(a + 1, b);
  }

  lemma MulCancel(n: int, x: nat, y: nat)
    requires x < y
    ensures n * x == n * y <==> n == 0
  {
    assert n * y - n * x == n * (y - x);
  }

  /** Read at scale 2, `1.5` is 15 hundredths. */
  lemma ScaleIsIgnored()
    ensures var size := DecimalSize(10, 2);
            ParseDecimal("1.5", size) == Ok(NumberValue.Decimal64(15, size))
  {
    hide ParseDecimal, Numeral, FromParts;
    var size := DecimalSize(10, 2);
    assert "1.5" == Numeral(false, 0, "1", Some("5"), None) by {
      OnePointFive();
    }
    assert NumeralParts(0, "1", Some("5"), None);
    ParseNumeral(false, 0, "1", Some("5"), None, size);
    FromPartsMeaning(false, "1", "5", 0, size);
    PlainMeaning(false, "1", "5", size);
    assert "1" + "5" == "15";
    assert NatOf("15") == 15 by {
      FifteenDigits();
    }
  }

  lemma OnePointFive()
    ensures "1.5" == Numeral(false, 0, "1", Some("5"), None)
  {
    assert Zeros(0) == "";
    assert "1" + "." + "5" == "1.5";
  }

  lemma FifteenDigits()
    ensures NatOf("15") == 15
  {
    assert "15"[..1] == "1" && "1"[..0] == "";
    assert NatOf("1") == 1;
  }

  /** An exponent with a plus sign or leading zeros is the number that it denotes. */
  lemma SignedExponent(sign: string, zeros: nat, x: nat)
    requires sign in {"", "+", "-"} && x <= I32_MAX
    ensures ExponentOf(Some(sign + (Zeros(zeros) + DecOf(x)))) == Ok(if sign == "-" then -(x as int) else x)
  {
    hide NatOf, Zeros, DecOf;
    var d := Zeros(zeros) + DecOf(x);
    assert AllDigits(d) && d != "";
    NatOfDecOf(x);
    NatOfPrefixedZeros(zeros, DecOf(x));
    SignedDigits(sign, d);
  }

  lemma SignedDigits(sign: string, d: string)
    requires sign in {"", "+", "-"} && AllDigits(d) && d != "" && NatOf(d) <= I32_MAX
    ensures ExponentOf(Some(sign + d)) == Ok(if sign == "-" then -(NatOf(d) as int) else NatOf(d))
  {
    hide NatOf;
    if sign == "" {
      assert sign + d == d && IsDigit(d[0]);
    } else {
      assert (sign + d)[1..] == d && (sign + d)[0] == sign[0];
    }
  }

  // ---------------------------------------------------------------------------
  // Printing and reading a decimal
  // ---------------------------------------------------------------------------

  /** A decimal type as the server declares it, and a value within it. */
  predicate InDecimal(value: int, size: DecimalSize) {
    && 1 <= size.precision <= MAX_DIGITS && size.scale <= size.precision
    && Abs(value) < Pow10(size.precision)
  }

  /** A decimal fits the integer of its constructor; the 64-bit and 128-bit ones have at
  most 38 digits of precision. */
  predicate WidthHolds(n: NumberValue) {
    match n
    case Integer(_, _) => false
    case Decimal64(v, size) => size.precision <= 38 && I64_MIN <= v <= I64_MAX
    case Decimal128(v, size) => size.precision <= 38 && -I128_MAX - 1 <= v <= I128_MAX
    case Decimal256(v, size) => -I256_MAX - 1 <= v <= I256_MAX
  }

  /** The integer part of a printed decimal without its leading zero. */
  function WholeDigits(value: int, scale: nat): (i: string)
    ensures AllDigits(i)
    ensures i != "" ==> i[0] != '0'
  {
    var whole := DivNat(Abs(value), Pow10(scale));
    DecOfHead(whole);
    if whole == 0 then "" else DecOf(whole)
  }

  function FractionPart(value: int, scale: nat): (f: Option<string>)
    ensures AllDigits(FractionOf(f))
  {
    if scale == 0 then None else Some(FractionDigits(value, scale))
  }

  /** The printed text of a decimal, as the parts of a numeral. */
  lemma DisplayIsNumeral(value: int, scale: nat)
    ensures DisplayDecimal(value, scale) ==
            Numeral(value < 0, if WholeDigits(value, scale) == "" then 1 else 0, WholeDigits(value, scale),
                    FractionPart(value, scale), None)
  {
    hide DisplayDecimal, WholeDigits, FractionDigits, DecOf, Pow10, DivNat, Numeral;
    DisplayParts(value, scale);
    WholeText(value, scale);
    NumeralWhole(value < 0, WholeDigits(value, scale), FractionPart(value, scale));
  }

  lemma NumeralWhole(isNegative: bool, whole: string, f: Option<string>)
    ensures Numeral(isNegative, if whole == "" then 1 else 0, whole, f, None)
            == (if isNegative then "-" else "")
               + ((if whole == "" then "0" else whole) + (if f.Some? then "." + f.value else ""))
  {
    assert Zeros(0) == "" && Zeros(1) == "0";
  }

  lemma WholeText(value: int, scale: nat)
    ensures DecOf(DivNat(Abs(value), Pow10(scale)))
            == if WholeDigits(value, scale) == "" then "0" else WholeDigits(value, scale)
  {
    hide DivNat;
    DecOfHead(DivNat(Abs(value), Pow10(scale)));
  }

  lemma DisplayParts(value: int, scale: nat)
    ensures var whole := DecOf(DivNat(Abs(value), Pow10(scale)));
            DisplayDecimal(value, scale) ==
            (if value < 0 then "-" else "") + (whole + (if scale == 0 then "" else "." + FractionDigits(value, scale)))
  {
    hide DecOf, FractionDigits;
    DivModLaw(Abs(value), Pow10(scale));
  }

  lemma FractionValue(value: int, scale: nat)
    requires scale > 0
    ensures |FractionDigits(value, scale)| == scale
    ensures NatOf(FractionDigits(value, scale)) == ModNat(Abs(value), Pow10(scale))
  {
    PaddedValue(ModNat(Abs(value), Pow10(scale)), scale);
    PaddedLength(ModNat(Abs(value), Pow10(scale)), scale);
  }

  /** The printed digits denote the magnitude, and there are at most as many as
  the precision. */
  lemma DisplayDigits(value: int, size: DecimalSize)
    requires InDecimal(value, size)
    ensures var i, f := WholeDigits(value, size.scale), FractionOf(FractionPart(value, size.scale));
            AllDigits(i + f) && |i| + |f| <= size.precision && NatOf(i + f) == Abs(value)
  {
    var m, p := Abs(value), Pow10(size.scale);
    var whole := DivNat(m, p);
    var i, f := WholeDigits(value, size.scale), FractionOf(FractionPart(value, size.scale));
    WholeLength(m, size);
    NatOfDecOf(whole);
    if size.scale > 0 {
      FractionValue(value, size.scale);
    }
    NatOfConcat(i, f);
    DivModLaw(m, p);
  }

  lemma DivModLaw(m: nat, p: nat)
    requires p > 0
    ensures m == DivNat(m, p) * p + ModNat(m, p) && ModNat(m, p) < p
    ensures p == 1 ==> DivNat(m, p) == m && ModNat(m, p) == 0
  {
  }

  lemma WholeLength(m: nat, size: DecimalSize)
    requires size.scale <= size.precision && m < Pow10(size.precision)
    ensures var whole := DivNat(m, Pow10(size.scale));
            whole == 0 || |DecOf(whole)| <= size.precision - size.scale
  {
    var k := size.precision - size.scale;
    var p := Pow10(size.scale);
    var whole := DivNat(m, p);
    Pow10Add(k, size.scale);
    DivModLaw(m, p);
    if whole >= Pow10(k) {
      MulMonotone(Pow10(k), whole, p);
    } else if whole != 0 {
      DecOfLength(whole, k);
    }
  }

  /** `parse_decimal` undoes `display_decimal` for every value within the declared
  precision whose magnitude its variant holds: at precision 19 and below, that is a
  magnitude of at most `i64::MAX`, so `i64::MIN` is refused too. */
  lemma DecimalRoundTrip(value: int, size: DecimalSize)
    requires InDecimal(value, size)
    ensures ParseDecimal(DisplayDecimal(value, size.scale), size) == Ok(MakeDecimal(value, size))
            <==> size.precision > 19 || Abs(value) <= I64_MAX
    ensures size.precision <= 19 && Abs(value) > I64_MAX ==>
              ParseDecimal(DisplayDecimal(value, size.scale), size) == Err(Rejected)
  {
    hide ParseDecimal, DisplayDecimal, Pow10;
    DisplayMeaning(value, size);
    MagnitudeFits(value, size);
  }

  lemma DisplayMeaning(value: int, size: DecimalSize)
    requires InDecimal(value, size)
    ensures ParseDecimal(DisplayDecimal(value, size.scale), size) == Fitted(value < 0, Abs(value), size)
  {
    var i, f := WholeDigits(value, size.scale), FractionPart(value, size.scale);
    DisplayIsNumeral(value, size.scale);
    DisplayDigits(value, size);
    ParseNumeral(value < 0, if i == "" then 1 else 0, i, f, None, size);
    FromPartsMeaning(value < 0, i, FractionOf(f), 0, size);
    PlainMeaning(value < 0, i, FractionOf(f), size);
  }

  lemma PlainMeaning(isNegative: bool, i: string, f: string, size: DecimalSize)
    requires AllDigits(i + f) && |i| + |f| <= MAX_DIGITS
    ensures Meaning(isNegative, i, f, 0, size) == Fitted(isNegative, NatOf(i + f), size)
  {
    DivModLaw(Scaled(i, f, 0), Pow10(0));
  }

  /** Above precision 19 the declared precision keeps a value within its variant; and the
  power of ten that the printer divides by fits the integer that it computes with. */
  lemma MagnitudeFits(value: int, size: DecimalSize)
    requires InDecimal(value, size)
    ensures size.precision > 19 ==> Abs(value) <= DecimalMax(size.precision)
    ensures Pow10(size.scale) <= if size.precision <= 38 then I128_MAX else I256_MAX
  {
    assert Pow10(38) <= I128_MAX && Pow10(76) <= I256_MAX by {
      Pow10Literals();
    }
    if size.precision > 38 {
      Pow10Monotone(size.precision, 76);
      Pow10Monotone(size.scale, 76);
    } else {
      Pow10Monotone(size.precision, 38);
      Pow10Monotone(size.scale, 38);
    }
  }

  lemma Pow10Literals()
    ensures Pow10(38) == 100_000_000_000_000_000_000_000_000_000_000_000_000
    ensures Pow10(76) ==
            10_000_000_000_000_000_000_000_000_000_000_000_000_000_000_000_000_000_000_000_000_000_000_000_000_000
  {
    hide Pow10;
    Pow10Nineteen();
    Pow10Add(19, 19);
    Pow10Add(38, 38);
  }

  lemma Pow10Nineteen()
    ensures Pow10(19) == 10_000_000_000_000_000_000
  {
    assert Pow10(1) == 10 * Pow10(0);
    assert Pow10(2) == 10 * Pow10(1);
    Pow10Add(2, 2);
    Pow10Add(4, 4);
    Pow10Add(8, 8);
    Pow10Add(16, 2);
    Pow10Add(18, 1);
  }

  // ---------------------------------------------------------------------------
  // The three widths
  // ---------------------------------------------------------------------------

  function Pow2(n: nat): nat {
    if n == 0 then 1 else 2 * Pow2(n - 1)
  }

  lemma {:induction false} Pow2Add(m: nat, n: nat)
    ensures Pow2(m + n) == Pow2(m) * Pow2(n)
  {
    if m > 0 {
      Pow2Add(m - 1, n);
      MulAssoc(2, Pow2(m - 1), Pow2(n));
    }
  }

  lemma SmallPowersOfTwo()
    ensures Pow2(1) == 2 && Pow2(8) == 256
  {
    assert Pow2(4) == 16;
    Pow2Add(4, 4);
  }

  lemma PowersOfTwo()
    ensures Pow2(63) == I64_MAX + 1 && Pow2(127) == I128_MAX + 1 && Pow2(255) == I256_MAX + 1
  {
    hide Pow2;
    SmallPowersOfTwo();
    Pow2Add(8, 8);
    Pow2Add(16, 16);
    Pow2Add(32, 32);
    Pow2Add(64, 64);
    Pow2Add(1, 63);
    Pow2Add(1, 127);
    Pow2Add(128, 128);
    Pow2Add(1, 255);
  }

  /** Up to precision 19 a decimal has 64 bits, up to 38 it has 128, and above 256. */
  lemma WidthSelected(v: int, size: DecimalSize)
    ensures size.precision <= 19 ==> MakeDecimal(v, size) == NumberValue.Decimal64(v, size)
    ensures 20 <= size.precision <= 38 ==> MakeDecimal(v, size) == NumberValue.Decimal128(v, size)
    ensures 39 <= size.precision ==> MakeDecimal(v, size) == NumberValue.Decimal256(v, size)
    ensures DecimalMax(size.precision) + 1 ==
            Pow2(if size.precision <= 19 then 63 else if size.precision <= 38 then 127 else 255)
  {
    hide Pow2;
    PowersOfTwo();
  }

  /** A point behind the letter of the exponent is a panic. */
  lemma PointBehindExponent(i: string, c: char, m: string, r: string, size: DecimalSize)
    requires AllDigits(i) && i != "" && i[0] != '0' && AllDigits(m) && c in "eE"
    ensures ParseDecimal(i + [c] + m + ("." + r), size) == Err(Panicked)
  {
    hide Find;
    var t := i + [c] + m + ("." + r);
    PrefixLenIs(t, IsZero, 0);
    assert t[0..] == t;
    FindIs(t, IsExp, |i|);
    FindIs(t, IsPoint, |i| + 1 + |m|);
  }
}
