/** How far a number reaches in a text, and what it is read as. */
module NumberSpans {
  import opened Results
  import opened Digits
  import opened Cursors

  /** An exponent: its letter, a sign or none, and digits. */
  datatype Exponent = Exponent(letter: char, sign: string, digits: string)

  /** A number as written: signs, digits, and perhaps a fraction and an exponent. */
  datatype Written = Written(signs: string, digits: string, fraction: Option<string>, exponent: Option<Exponent>)

  predicate AllSigns(s: string) {
    forall i :: 0 <= i < |s| ==> s[i] in "+-"
  }

  predicate Good(w: Written) {
    && AllSigns(w.signs) && AllDigits(w.digits) && (w.fraction.Some? ==> AllDigits(w.fraction.value))
    && (w.exponent.Some? ==>
          && w.digits != "" && w.exponent.value.letter in "eE" && w.exponent.value.sign in ["", "+", "-"]
          && AllDigits(w.exponent.value.digits))
  }

  function FractionText(w: Written): string {
    if w.fraction.Some? then "." + w.fraction.value else ""
  }

  function ExponentText(w: Written): string {
    match w.exponent
    case None => ""
    case Some(e) => [e.letter] + e.sign + e.digits
  }

  function Text(w: Written): string {
    w.signs + w.digits + FractionText(w) + ExponentText(w)
  }

  /** What follows does not go on with the number. */
  predicate Stops(w: Written, rest: string) {
    rest != "" ==>
      && !IsDigit(rest[0])
      && (w.exponent.Some? && w.exponent.value.sign == "" && w.exponent.value.digits == "" ==> rest[0] !in "+-")
      && (w.exponent.None? && w.digits != "" ==> rest[0] !in "eE")
      && (w.exponent.None? && w.fraction.None? ==> rest[0] != '.')
      && (w.exponent.None? && w.fraction.None? && w.digits == "" ==> rest[0] !in "+-")
  }

  lemma {:induction false} MantissaReaches(signs: string, digits: string, tail: string)
    requires AllSigns(signs) && AllDigits(digits)
    requires tail != "" ==> !IsDigit(tail[0]) && (digits == "" ==> tail[0] !in "+-")
    ensures PrefixLen(signs + digits + tail, IsSign) == |signs|
    ensures MantissaEnd(signs + digits + tail) == |signs| + |digits|
  {
    var s := signs + digits + tail;
    assert forall i :: 0 <= i < |signs| ==> s[i] == signs[i];
    if digits != "" {
      assert IsDigit(digits[0]) && s[|signs|] == digits[0];
    }
    PrefixLenIs(s, IsSign, |signs|);
    assert s[|signs|..] == digits + tail;
    PrefixLenIs(digits + tail, IsDigit, |digits|);
  }

  lemma {:induction false} DigitsReach(before: string, digits: string, tail: string)
    requires AllDigits(digits) && (tail != "" ==> !IsDigit(tail[0]))
    ensures DigitsEnd(before + digits + tail, |before|) == |before| + |digits|
  {
    assert (before + digits + tail)[|before|..] == digits + tail;
    PrefixLenIs(digits + tail, IsDigit, |digits|);
  }

  lemma {:induction false} FractionReaches(w: Written, tail: string)
    requires Good(w) && (tail != "" ==> !IsDigit(tail[0]) && (w.fraction.None? ==> tail[0] != '.'))
    ensures var s, b := w.signs + w.digits + FractionText(w) + tail, |w.signs| + |w.digits|;
            && (AtPoint(s, b) <==> w.fraction.Some?)
            && (w.fraction.Some? ==>
                  DigitsEnd(s, b + 1) == b + 1 + |w.fraction.value|
                  && s[b + 1..b + 1 + |w.fraction.value|] == w.fraction.value)
  {
    var head := w.signs + w.digits;
    if w.fraction.Some? {
      assert head + ("." + w.fraction.value) + tail == (head + ".") + w.fraction.value + tail;
      DigitsReach(head + ".", w.fraction.value, tail);
    } else {
      assert head + "" + tail == head + tail;
    }
  }

  lemma {:induction false} ExponentReaches(head: string, e: Exponent, rest: string)
    requires e.letter in "eE" && e.sign in ["", "+", "-"] && AllDigits(e.digits)
    requires rest != "" ==> !IsDigit(rest[0]) && (e.sign == "" && e.digits == "" ==> rest[0] !in "+-")
    ensures var s := head + ([e.letter] + e.sign + e.digits) + rest;
            AtExponent(s, |head|) && ExponentEnd(s, |head|) == |head| + 1 + |e.sign| + |e.digits|
  {
    hide DigitsEnd;
    var before := head + [e.letter] + e.sign;
    var s := head + ([e.letter] + e.sign + e.digits) + rest;
    assert s == before + e.digits + rest;
    SignReaches(head, e, rest);
    DigitsReach(before, e.digits, rest);
  }

  lemma SignReaches(head: string, e: Exponent, rest: string)
    requires e.sign in ["", "+", "-"] && AllDigits(e.digits)
    requires rest != "" ==> !IsDigit(rest[0]) && (e.sign == "" && e.digits == "" ==> rest[0] !in "+-")
    ensures var s := head + ([e.letter] + e.sign + e.digits) + rest;
            && s[|head|] == e.letter
            && ((|head| + 1 < |s| && IsSign(s[|head| + 1])) <==> e.sign != "")
  {
    var more := e.sign + e.digits + rest;
    assert head + ([e.letter] + e.sign + e.digits) + rest == head + [e.letter] + more;
    assert more != "" ==> (head + [e.letter] + more)[|head| + 1] == more[0];
  }

  predicate OnlyZeros(s: string) {
    s == Zeros(|s|)
  }

  lemma ZerosOnly(s: string)
    ensures AllZeros(s) <==> OnlyZeros(s)
  {
    if OnlyZeros(s) {
      assert forall i :: 0 <= i < |s| ==> s[i] == Zeros(|s|)[i];
    }
  }

  /** A number reaches as far as it is written; what is parsed of it leaves out a fraction of
  zeros, point and all, if there is no exponent. */
  lemma {:induction false} SpanIs(w: Written, rest: string)
    requires Good(w) && Stops(w, rest)
    ensures NumberSpan(Text(w) + rest) ==
            (|Text(w)|,
             if w.exponent.None? && w.fraction.Some? && OnlyZeros(w.fraction.value)
             then |w.signs| + |w.digits| else |Text(w)|)
  {
    hide PrefixLen, MantissaEnd, DigitsEnd, ExponentEnd, FractionText, ExponentText, AtPoint, AtExponent, NumberSpan;
    hide AllZeros, OnlyZeros, Text;
    var tail := ExponentText(w) + rest;
    TailStops(w, rest);
    TextShape(w, rest);
    MantissaReaches(w.signs, w.digits, FractionText(w) + tail);
    FractionReaches(w, tail);
    ExponentIsAt(w, rest);
    var s, b := Text(w) + rest, |w.signs| + |w.digits|;
    var c := if w.fraction.Some? then b + 1 + |w.fraction.value| else b;
    assert w.fraction.Some? ==> s[b + 1..c] == w.fraction.value;
    if w.fraction.Some? {
      ZerosOnly(w.fraction.value);
    }
    SpanOfParts(s, |w.signs|, b, c, w.exponent.Some?);
  }

  lemma TextShape(w: Written, rest: string)
    ensures var tail := ExponentText(w) + rest;
            && Text(w) + rest == w.signs + w.digits + FractionText(w) + tail
            && Text(w) + rest == w.signs + w.digits + (FractionText(w) + tail)
  {
    hide FractionText, ExponentText;
    var head, f, tail := w.signs + w.digits, FractionText(w), ExponentText(w) + rest;
    assert head + f + ExponentText(w) + rest == head + f + tail;
    assert head + f + tail == head + (f + tail);
  }

  lemma SpanOfParts(s: string, a: nat, b: nat, c: nat, exponent: bool)
    requires a <= b <= c <= |s| && PrefixLen(s, IsSign) == a && MantissaEnd(s) == b
    requires if AtPoint(s, b) then c == DigitsEnd(s, b + 1) else c == b
    requires exponent ==> b > a
    requires b > a ==> (AtExponent(s, c) <==> exponent)
    ensures NumberSpan(s) ==
            if exponent then (ExponentEnd(s, c), ExponentEnd(s, c))
            else (c, if AtPoint(s, b) && AllZeros(s[b + 1..c]) then b else c)
  {
    hide PrefixLen, MantissaEnd, DigitsEnd, ExponentEnd, AllZeros;
  }

  lemma TailStops(w: Written, rest: string)
    requires Good(w) && Stops(w, rest)
    ensures var tail := ExponentText(w) + rest;
            && (tail != "" ==> !IsDigit(tail[0]) && (w.fraction.None? ==> tail[0] != '.'))
            && (var more := FractionText(w) + tail;
                more != "" ==> !IsDigit(more[0]) && (w.digits == "" ==> more[0] !in "+-"))
            && |FractionText(w)| == (if w.fraction.Some? then 1 + |w.fraction.value| else 0)
  {
  }

  lemma ExponentIsAt(w: Written, rest: string)
    requires Good(w) && Stops(w, rest)
    ensures var s, c := Text(w) + rest, |w.signs| + |w.digits| + |FractionText(w)|;
            && c <= |Text(w)|
            && (w.digits != "" ==> (AtExponent(s, c) <==> w.exponent.Some?))
            && (w.exponent.Some? ==> AtExponent(s, c) && ExponentEnd(s, c) == |Text(w)|)
            && (w.exponent.None? ==> c == |Text(w)|)
  {
    hide ExponentEnd, FractionText;
    var head := w.signs + w.digits + FractionText(w);
    match w.exponent
    case None => assert head + "" + rest == head + rest;
    case Some(e) => ExponentReaches(head, e, rest);
  }

  /** An integer within a text: a sign or none, digits, and perhaps a fraction of zeros, which
  is passed over; any other fraction is refused. */
  lemma {:induction false} IntegerRead(sign: string, digits: string, fraction: Option<string>, rest: string,
                                       lo: int, hi: int)
    requires sign in ["", "+", "-"] && digits != "" && AllDigits(digits)
    requires fraction.Some? ==> AllDigits(fraction.value)
    requires rest != "" ==> !IsDigit(rest[0]) && rest[0] !in "eE" && rest[0] != '.'
    ensures var v: int := if sign == "-" then -(NatOf(digits) as int) else NatOf(digits);
            ReadInteger(sign + digits + (if fraction.Some? then "." + fraction.value else "") + rest, lo, hi) ==
            if lo <= v <= hi && !(sign == "-" && lo == 0) && (fraction.None? || OnlyZeros(fraction.value))
            then Ok(Parsed(v, rest)) else Err(Rejected)
  {
    hide NumberSpan, ParseInteger, NatOf, OnlyZeros, Text;
    var w := Written(sign, digits, fraction, None);
    var f := if fraction.Some? then "." + fraction.value else "";
    assert Text(w) == sign + digits + f by {
      PlainText(sign, digits, fraction);
    }
    SpanIs(w, rest);
    SlicesOf(sign + digits, f, rest);
    if fraction.None? || OnlyZeros(fraction.value) {
      ParseIntegerIs(sign, digits, lo, hi);
    } else {
      PointRefused(sign, digits, fraction.value, lo, hi);
    }
  }

  lemma PlainText(sign: string, digits: string, fraction: Option<string>)
    ensures Text(Written(sign, digits, fraction, None))
            == sign + digits + (if fraction.Some? then "." + fraction.value else "")
  {
  }

  lemma SlicesOf(a: string, b: string, rest: string)
    ensures (a + b + rest)[..|a|] == a && (a + b + rest)[..|a + b|] == a + b && (a + b + rest)[|a + b|..] == rest
    ensures b == "" ==> a + b == a
  {
  }

  lemma PointRefused(sign: string, digits: string, fraction: string, lo: int, hi: int)
    requires digits != ""
    ensures ParseInteger(sign + digits + ("." + fraction), lo, hi) == Err(Rejected)
  {
    var s := sign + digits + ("." + fraction);
    assert s[|sign| + |digits|] == '.' && s[1..][|sign| + |digits| - 1] == '.';
    OnlyIntegersParse(s, lo, hi);
  }
}
