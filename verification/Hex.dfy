/** Hexadecimal text of bytes: the plain mathematics behind the `hex` library. */
module Hex {
  import opened Results
  import opened Cursors
  import opened Values

  function HexChar(d: nat): (c: char)
    requires d < 16
    ensures IsHexDigit(c)
  {
    if d < 10 then ('0' as int + d) as char else ('A' as int + d - 10) as char
  }

  function HexOf(c: char): (d: nat)
    requires IsHexDigit(c)
    ensures d < 16
  {
    if '0' <= c <= '9' then c as int - '0' as int
    else if 'a' <= c <= 'f' then c as int - 'a' as int + 10
    else c as int - 'A' as int + 10
  }

  function EncodeUpper(bs: seq<byte>): (s: string)
    ensures |s| == 2 * |bs|
    ensures forall i :: 0 <= i < |s| ==> IsHexDigit(s[i])
  {
    if bs == [] then ""
    else [HexChar(bs[0] as int / 16), HexChar(bs[0] as int % 16)] + EncodeUpper(bs[1..])
  }

  function Decode(s: string): Result<seq<byte>> {
    if s == "" then Ok([])
    else if |s| == 1 || !IsHexDigit(s[0]) || !IsHexDigit(s[1]) then Err(Rejected)
    else
      var bs :- Decode(s[2..]);
      Ok([(HexOf(s[0]) * 16 + HexOf(s[1])) as byte] + bs)
  }

  lemma {:induction false} DecodeEncode(bs: seq<byte>)
    ensures Decode(EncodeUpper(bs)) == Ok(bs)
  {
    if bs != [] {
      DecodeEncode(bs[1..]);
      var s := EncodeUpper(bs);
      assert s[2..] == EncodeUpper(bs[1..]);
      HexOfChar(bs[0] as int / 16);
      HexOfChar(bs[0] as int % 16);
      assert [bs[0]] + bs[1..] == bs;
    }
  }

  lemma HexOfChar(d: nat)
    requires d < 16
    ensures HexOf(HexChar(d)) == d
  {
  }

  /** The hexadecimal digits of ASCII, in either case. */
  lemma AsciiHexDigits(c: char)
    ensures IsHexDigit(c) <==> 48 <= c as int <= 57 || 65 <= c as int <= 70 || 97 <= c as int <= 102
    ensures IsHexDigit(c) ==>
              HexOf(c) == c as int - if c as int <= 57 then 48 else if c as int <= 70 then 55 else 87
  {
  }

  /** Exactly the texts of pairs of hexadecimal digits are decoded, each pair to one byte. */
  lemma {:induction false} DecodeIff(s: string)
    ensures Decode(s).Ok? <==> |s| % 2 == 0 && forall i :: 0 <= i < |s| ==> IsHexDigit(s[i])
    ensures Decode(s).Ok? ==>
              var bs := Decode(s).value;
              2 * |bs| == |s|
              && forall k :: 0 <= k < |bs| ==> bs[k] as int == HexOf(s[2 * k]) * 16 + HexOf(s[2 * k + 1])
    decreases |s|
  {
    if |s| >= 2 {
      DecodeIff(s[2..]);
      assert forall i :: 2 <= i < |s| ==> s[i] == s[2..][i - 2];
    }
  }
}
