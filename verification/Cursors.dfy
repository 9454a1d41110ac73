/** The byte cursor and its reading extensions (`sql/src/cursor_ext`).

What a reader does is first given as a function of the unread text; the methods
of `Cursor` move a position over one buffer, as the source does, and are proved
to leave exactly the text that the function leaves. */
module Cursors {
  import opened Results
  import opened Digits

  predicate IsWhite(c: char) {
    c == ' ' || c == '\t' || c == '\n' || c == (12 as char) || c == '\r'
  }

  predicate IsHexDigit(c: char) {
    IsDigit(c) || 'a' <= c <= 'f' || 'A' <= c <= 'F'
  }

  /** The white space of ASCII: blank, tab, newline, form feed, carriage return. */
  lemma AsciiWhite(c: char)
    ensures IsWhite(c) <==> c as int in {32, 9, 10, 12, 13}
  {
  }

  /** The length of the longest prefix whose characters all satisfy `f`. */
  function PrefixLen(s: string, f: char -> bool): (n: nat)
    ensures n <= |s|
  {
    if s == "" || !f(s[0]) then 0 else 1 + PrefixLen(s[1..], f)
  }

  lemma {:induction false} PrefixLenAll(s: string, f: char -> bool)
    ensures forall i :: 0 <= i < PrefixLen(s, f) ==> f(s[i])
    ensures PrefixLen(s, f) < |s| ==> !f(s[PrefixLen(s, f)])
  {
    if s != "" && f(s[0]) {
      PrefixLenAll(s[1..], f);
      assert forall i :: 1 <= i < PrefixLen(s, f) ==> s[i] == s[1..][i - 1];
    }
  }

  lemma PrefixLenIs(s: string, f: char -> bool, n: nat)
    requires n <= |s|
    requires forall i :: 0 <= i < n ==> f(s[i])
    requires n < |s| ==> !f(s[n])
    ensures PrefixLen(s, f) == n
  {
    PrefixLenAll(s, f);
  }

  function SkipWhite(s: string): (r: string)
    ensures |r| <= |s|
  {
    if s == "" || !IsWhite(s[0]) then s else SkipWhite(s[1..])
  }

  lemma {:induction false} SkipWhiteIs(s: string)
    ensures SkipWhite(s) == s[PrefixLen(s, IsWhite)..]
  {
    if s != "" && IsWhite(s[0]) {
      SkipWhiteIs(s[1..]);
    }
  }

  predicate StartsWith(s: string, p: string) {
    |p| <= |s| && s[..|p|] == p
  }

  /** Reads one character `b`, or rejects. */
  function Expect(s: string, b: char): Result<string> {
    if s != "" && s[0] == b then Ok(s[1..]) else Err(Rejected)
  }

  /** What a backslash followed by `c` stands for inside a quoted text. */
  function Unescape(c: char): string {
    match c
    case 'n' => "\n"
    case 't' => "\t"
    case 'r' => "\r"
    case '0' => "\0"
    case '\'' => "'"
    case '\\' => "\\"
    case _ => ['\\', c]
  }

  function Prepend(p: string, r: Result<Parsed<string>>): Result<Parsed<string>> {
    match r
    case Ok(q) => Ok(Parsed(p + q.value, q.rest))
    case Err(e) => Err(e)
  }

  /** The text up to the closing `quote`, and what follows that quote. */
  function QuotedBody(s: string, quote: char): (r: Result<Parsed<string>>)
    ensures r.Ok? ==> |r.value.rest| < |s|
  {
    if s == "" then Err(Rejected)
    else if s[0] == quote then
      if |s| > 1 && s[1] == quote then Prepend([quote], QuotedBody(s[2..], quote))
      else Ok(Parsed("", s[1..]))
    else if s[0] == '\\' then
      if |s| == 1 then Err(Rejected) else Prepend(Unescape(s[1]), QuotedBody(s[2..], quote))
    else Prepend([s[0]], QuotedBody(s[1..], quote))
  }

  function QuotedText(s: string, quote: char): (r: Result<Parsed<string>>)
    ensures r.Ok? ==> |r.value.rest| < |s|
  {
    match Expect(s, quote)
    case Ok(body) => QuotedBody(body, quote)
    case Err(e) => Err(e)
  }

  /** A run of plain characters belongs to the text as it is. */
  lemma {:induction false} QuotedBodySkip(s: string, quote: char, n: nat)
    requires n <= |s|
    requires forall i :: 0 <= i < n ==> s[i] != quote && s[i] != '\\'
    ensures QuotedBody(s, quote) == Prepend(s[..n], QuotedBody(s[n..], quote))
  {
    if n == 0 {
      assert s[0..] == s;
      PrependNothing(QuotedBody(s, quote));
    } else {
      QuotedBodySkip(s[1..], quote, n - 1);
      assert s[1..][n - 1..] == s[n..];
      PrependTwice([s[0]], s[1..][..n - 1], QuotedBody(s[n..], quote));
      assert [s[0]] + s[1..][..n - 1] == s[..n];
    }
  }

  /** The characters that stand for themselves inside a quoted text. */
  function Plain(quote: char): char -> bool {
    b => b != quote && b != '\\'
  }

  lemma BodyPlain(out: string, s: string, quote: char)
    ensures var n := PrefixLen(s, Plain(quote));
            Prepend(out, QuotedBody(s, quote)) == Prepend(out + s[..n], QuotedBody(s[n..], quote))
  {
    var n := PrefixLen(s, Plain(quote));
    PrefixLenAll(s, Plain(quote));
    QuotedBodySkip(s, quote, n);
    PrependTwice(out, s[..n], QuotedBody(s[n..], quote));
  }

  lemma BodyDoubled(out: string, s: string, quote: char)
    requires |s| > 1 && s[0] == quote && s[1] == quote
    ensures Prepend(out, QuotedBody(s, quote)) == Prepend(out + [quote], QuotedBody(s[2..], quote))
  {
    PrependTwice(out, [quote], QuotedBody(s[2..], quote));
  }

  lemma BodyEscape(out: string, s: string, quote: char)
    requires |s| > 1 && s[0] == '\\' != quote
    ensures Prepend(out, QuotedBody(s, quote)) == Prepend(out + Unescape(s[1]), QuotedBody(s[2..], quote))
  {
    PrependTwice(out, Unescape(s[1]), QuotedBody(s[2..], quote));
  }

  lemma PrependNothing(r: Result<Parsed<string>>)
    ensures Prepend("", r) == r
  {
    if r.Ok? {
      assert "" + r.value.value == r.value.value;
    }
  }

  lemma PrependTwice(a: string, b: string, r: Result<Parsed<string>>)
    ensures Prepend(a, Prepend(b, r)) == Prepend(a + b, r)
  {
    if r.Ok? {
      assert a + (b + r.value.value) == a + b + r.value.value;
    }
  }

  /** Where the leading signs and digits of a number end. */
  function MantissaEnd(s: string): (b: nat)
    ensures b <= |s|
  {
    var a := PrefixLen(s, IsSign);
    a + PrefixLen(s[a..], IsDigit)
  }

  function DigitsEnd(s: string, start: nat): (n: nat)
    requires start <= |s|
    ensures start <= n <= |s|
  {
    start + PrefixLen(s[start..], IsDigit)
  }

  predicate AtPoint(s: string, b: nat) {
    b < |s| && s[b] == '.'
  }

  predicate AtExponent(s: string, c: nat) {
    c < |s| && (s[c] == 'e' || s[c] == 'E')
  }

  /** Where the exponent whose letter is at `c` ends. */
  function ExponentEnd(s: string, c: nat): (n: nat)
    requires AtExponent(s, c)
    ensures c < n <= |s|
  {
    DigitsEnd(s, if c + 1 < |s| && IsSign(s[c + 1]) then c + 2 else c + 1)
  }

  /** How far a number reaches: its signs, digits, fraction and exponent; and how
  far it reaches when a fraction of zeros is left out. */
  function NumberSpan(s: string): (r: (nat, nat))
    ensures r.1 <= r.0 <= |s|
  {
    var b := MantissaEnd(s);
    var c := if AtPoint(s, b) then DigitsEnd(s, b + 1) else b;
    if b > PrefixLen(s, IsSign) && AtExponent(s, c) then
      (ExponentEnd(s, c), ExponentEnd(s, c))
    else
      (c, if AtPoint(s, b) && AllZeros(s[b + 1..c]) then b else c)
  }

  predicate AllZeros(s: string) {
    forall i :: 0 <= i < |s| ==> s[i] == '0'
  }

  function HexSpan(s: string): (n: nat)
    ensures n <= |s|
  {
    PrefixLen(s, IsHexDigit)
  }

  function ReadInteger(s: string, lo: int, hi: int): (r: Result<Parsed<int>>)
    ensures r.Ok? ==> |r.value.rest| <= |s|
  {
    var (nIn, nOut) := NumberSpan(s);
    if nIn == 0 then Err(Rejected)
    else Located(ParseInteger(s[..nOut], lo, hi), s[nIn..])
  }

  method CollectNumber(buffer: string) returns (nIn: nat, nOut: nat)
    ensures (nIn, nOut) == NumberSpan(buffer)
  {
    var hasNumber, index, pointPos := CollectMantissa(buffer);
    if pointPos < |buffer| {
      index := SkipDigits(buffer, index);
    }
    if hasNumber && AtExponent(buffer, index) {
      index := CollectExponent(buffer, index);
      return index, index;
    }
    var effective := if pointPos < |buffer| && AllZeros(buffer[pointPos + 1..index]) then pointPos else index;
    return index, effective;
  }

  lemma MantissaShape(s: string)
    ensures var a, b := PrefixLen(s, IsSign), MantissaEnd(s);
            && (forall i :: 0 <= i < a ==> IsSign(s[i])) && (forall i :: a <= i < b ==> IsDigit(s[i]))
            && (b < |s| ==> !IsDigit(s[b])) && (a < |s| ==> !IsSign(s[a]))
  {
    hide PrefixLen, IsSign, IsDigit;
    var a := PrefixLen(s, IsSign);
    PrefixLenAll(s, IsSign);
    PrefixLenAll(s[a..], IsDigit);
    BehindPrefix(s, a, PrefixLen(s[a..], IsDigit), IsDigit);
  }

  lemma BehindPrefix(s: string, a: nat, n: nat, f: char -> bool)
    requires a + n <= |s| && forall i :: 0 <= i < n ==> f(s[a..][i])
    requires n < |s[a..]| ==> !f(s[a..][n])
    ensures forall i :: a <= i < a + n ==> f(s[i])
    ensures a + n < |s| ==> !f(s[a + n])
  {
    forall i | a <= i < a + n ensures f(s[i]) {
      assert s[i] == s[a..][i - a];
    }
  }

  method CollectExponent(buffer: string, start: nat) returns (index: nat)
    requires AtExponent(buffer, start)
    ensures index == ExponentEnd(buffer, start)
  {
    index := start + 1;
    if index < |buffer| && IsSign(buffer[index]) {
      index := index + 1;
    }
    index := SkipDigits(buffer, index);
  }

  /** The first loop of `collect_number`: signs, digits, and the point if one
  follows. `pointPos` is the buffer length when there is none. */
  method CollectMantissa(buffer: string) returns (hasNumber: bool, index: nat, pointPos: nat)
    ensures hasNumber == (MantissaEnd(buffer) > PrefixLen(buffer, IsSign))
    ensures AtPoint(buffer, MantissaEnd(buffer)) ==>
              pointPos == MantissaEnd(buffer) && index == MantissaEnd(buffer) + 1
    ensures !AtPoint(buffer, MantissaEnd(buffer)) ==> pointPos == |buffer| && index == MantissaEnd(buffer)
  {
    hasNumber, index, pointPos := false, 0, |buffer|;
    ghost var a := PrefixLen(buffer, IsSign);
    ghost var b := MantissaEnd(buffer);
    MantissaShape(buffer);
    while index < |buffer|
      invariant index <= b
      invariant hasNumber == (index > a)
    {
      var c := buffer[index];
      if IsDigit(c) {
        hasNumber := true;
      } else if IsSign(c) {
        if hasNumber {
          return;
        }
      } else if c == '.' {
        pointPos := index;
        index := index + 1;
        return;
      } else {
        return;
      }
      index := index + 1;
    }
  }

  /** Where the run of digits from `start` on ends. */
  method SkipDigits(buffer: string, start: nat) returns (index: nat)
    requires start <= |buffer|
    ensures index == DigitsEnd(buffer, start)
  {
    index := start;
    while index < |buffer| && IsDigit(buffer[index])
      invariant start <= index <= |buffer|
      invariant forall i :: start <= i < index ==> IsDigit(buffer[i])
    {
      index := index + 1;
    }
    PrefixLenIs(buffer[start..], IsDigit, index - start);
  }

  method CollectBinaryNumber(buffer: string) returns (index: nat)
    ensures index == HexSpan(buffer)
  {
    index := 0;
    while index < |buffer| && IsHexDigit(buffer[index])
      invariant index <= |buffer|
      invariant forall i :: 0 <= i < index ==> IsHexDigit(buffer[i])
    {
      index := index + 1;
    }
    PrefixLenIs(buffer, IsHexDigit, index);
  }

  class Cursor {
    const data: string
    var pos: nat

    ghost predicate Valid()
      reads this
    {
      pos <= |data|
    }

    /** The unread text. */
    function Rest(): string
      requires Valid()
      reads this
    {
      data[pos..]
    }

    constructor (text: string)
      ensures Valid() && data == text && Rest() == text
    {
      data := text;
      pos := 0;
    }

    method Consume(n: nat)
      requires Valid() && n <= |Rest()|
      modifies this`pos
      ensures Valid() && Rest() == old(Rest())[n..]
    {
      pos := pos + n;
    }

    method IgnoreByte(b: char) returns (found: bool)
      requires Valid()
      modifies this`pos
      ensures Valid() && found == (old(Rest()) != "" && old(Rest())[0] == b)
      ensures Rest() == if found then old(Rest())[1..] else old(Rest())
    {
      found := pos < |data| && data[pos] == b;
      if found {
        pos := pos + 1;
      }
    }

    method MustIgnoreByte(b: char) returns (r: Result<()>)
      requires Valid()
      modifies this`pos
      ensures Valid() && (r.Ok? <==> Expect(old(Rest()), b).Ok?)
      ensures Rest() == if r.Ok? then old(Rest())[1..] else old(Rest())
      ensures r.Err? ==> r.error == Rejected
    {
      var found := IgnoreByte(b);
      r := if found then Ok(()) else Err(Rejected);
    }

    /** Consumes `bs` and nothing else; on a mismatch the position is kept. */
    method IgnoreBytes(bs: string) returns (found: bool)
      requires Valid()
      modifies this`pos
      ensures Valid() && found == StartsWith(old(Rest()), bs)
      ensures Rest() == if found then old(Rest())[|bs|..] else old(Rest())
    {
      if |data| - pos < |bs| {
        return false;
      }
      var i := 0;
      while i < |bs| && data[pos + i] == bs[i]
        invariant i <= |bs| && forall k :: 0 <= k < i ==> data[pos + k] == bs[k]
      {
        i := i + 1;
      }
      found := i == |bs|;
      if found {
        assert Rest()[..|bs|] == bs;
        pos := pos + |bs|;
      } else {
        assert Rest()[..|bs|][i] != bs[i];
      }
    }

    /** Pushes onto `buf` the longest prefix that satisfies `f`, and counts it. */
    method KeepRead(buf: string, f: char -> bool) returns (out: string, count: nat)
      requires Valid()
      modifies this`pos
      ensures Valid() && count == PrefixLen(old(Rest()), f)
      ensures out == buf + old(Rest())[..PrefixLen(old(Rest()), f)]
      ensures Rest() == old(Rest())[PrefixLen(old(Rest()), f)..]
      ensures Rest() != "" ==> !f(Rest()[0])
    {
      var toRead := pos;
      while toRead < |data| && f(data[toRead])
        invariant pos <= toRead <= |data|
        invariant forall i :: pos <= i < toRead ==> f(data[i])
      {
        toRead := toRead + 1;
      }
      PrefixLenIs(Rest(), f, toRead - pos);
      out, count := buf + data[pos..toRead], toRead - pos;
      pos := toRead;
    }

    /** Skips white space, and tells whether there was any. */
    method IgnoreWhiteSpaces() returns (found: bool)
      requires Valid()
      modifies this`pos
      ensures Valid() && Rest() == SkipWhite(old(Rest()))
      ensures found <==> old(Rest()) != "" && IsWhite(old(Rest())[0])
    {
      SkipWhiteIs(Rest());
      PrefixLenAll(Rest(), IsWhite);
      var _, count := KeepRead("", IsWhite);
      found := count > 0;
    }

    /** Appends a quoted text to `buf`. A failure leaves the cursor where it was
    when the opening quote is missing, and at the end of the text otherwise. */
    method ReadQuotedText(buf: string, quote: char) returns (r: Result<string>)
      requires Valid() && quote != '\\'
      modifies this`pos
      ensures Valid()
      ensures Located(r, Rest()) == Prepend(buf, QuotedText(old(Rest()), quote))
      ensures r.Err? ==> Rest() == if Expect(old(Rest()), quote).Err? then old(Rest()) else ""
    {
      var entered := MustIgnoreByte(quote);
      if entered.Err? {
        return Err(Rejected);
      }
      var out, done := buf, false;
      ghost var all := Prepend(buf, QuotedBody(Rest(), quote));
      while !done
        invariant Valid()
        invariant !done ==> Prepend(out, QuotedBody(Rest(), quote)) == all
        invariant done ==> all == Ok(Parsed(out, Rest()))
        decreases !done, |Rest()|
      {
        BodyPlain(out, Rest(), quote);
        var kept, _ := KeepRead(out, Plain(quote));
        out := kept;
        var step := ReadSpecial(out, quote);
        match step
        case Err(e) => return Err(e);
        case Ok(next) => out, done := next.0, next.1;
      }
      r := Ok(out);
    }

    /** The part of the loop of `read_quoted_text` that follows a run of plain
    characters: a quote that ends the text, a doubled quote, or an escape. */
    method ReadSpecial(buf: string, quote: char) returns (r: Result<(string, bool)>)
      requires Valid() && quote != '\\'
      requires Rest() != "" ==> Rest()[0] == quote || Rest()[0] == '\\'
      modifies this`pos
      ensures Valid()
      ensures r.Err? ==> r.error == Rejected && Rest() == "" && QuotedBody(old(Rest()), quote) == Err(Rejected)
      ensures r.Ok? && r.value.1 ==>
                Prepend(buf, QuotedBody(old(Rest()), quote)) == Ok(Parsed(r.value.0, Rest()))
      ensures r.Ok? && !r.value.1 ==>
                Prepend(buf, QuotedBody(old(Rest()), quote)) == Prepend(r.value.0, QuotedBody(Rest(), quote))
                && |Rest()| < |old(Rest())|
    {
      ghost var s := Rest();
      if pos == |data| {
        return Err(Rejected);
      }
      if data[pos] == quote {
        pos := pos + 1;
        assert Rest() == s[1..];
        if pos < |data| && data[pos] == quote {
          BodyDoubled(buf, s, quote);
          pos := pos + 1;
          assert Rest() == s[2..];
          return Ok((buf + [quote], false));
        }
        assert buf + "" == buf;
        return Ok((buf, true));
      }
      pos := pos + 1;
      if pos == |data| {
        return Err(Rejected);
      }
      BodyEscape(buf, s, quote);
      var c := data[pos];
      pos := pos + 1;
      assert Rest() == s[2..];
      r := Ok((buf + Unescape(c), false));
    }

    method ReadIntText(lo: int, hi: int) returns (r: Result<int>)
      requires Valid()
      modifies this`pos
      ensures Valid() && (r.Ok? ==> Located(r, Rest()) == ReadInteger(old(Rest()), lo, hi))
      ensures r.Err? ==> ReadInteger(old(Rest()), lo, hi) == Err(r.error) && Rest() == old(Rest())
    {
      var nIn, nOut := CollectNumber(Rest());
      if nIn == 0 {
        return Err(Rejected);
      }
      r := ParseInteger(Rest()[..nOut], lo, hi);
      if r.Ok? {
        Consume(nIn);
      }
    }
  }
}
