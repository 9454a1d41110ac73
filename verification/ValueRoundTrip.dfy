/** Reading back what the driver writes: values nested in other values, and whole
columns of a row (`RawRow::from`, sql/src/raw_rows.rs). */
module ValueRoundTrip {
  import opened Results
  import opened Digits
  import opened Cursors
  import opened Decimals
  import opened Schema
  import opened Values
  import opened QuotedStrings
  import opened NestedText
  import opened NestedRoundTrip
  import opened ValueText
  import Hex

  // ---------------------------------------------------------------------------
  // Leaves
  // ---------------------------------------------------------------------------

  lemma NumberTextHead(n: NumberValue)
    ensures NumberText(n) != "" && (IsDigit(NumberText(n)[0]) || NumberText(n)[0] == '-')
  {
  }

  lemma LeafTextHead(v: Value)
    ensures var s := LeafText(v, false); s != "" ==> Opens(s[0]) && (s[0] == 'N' ==> v.Null?)
  {
    if v.Number? {
      NumberTextHead(v.number);
    } else if v.Binary? && v.bytes != [] {
      assert IsHexDigit(LeafText(v, false)[0]);
    }
  }

  /** A numeral without an exponent ends where a separator stands. */
  lemma NumeralSpan(isNegative: bool, i: string, f: Option<string>, rest: string)
    requires AllDigits(i) && i != "" && (f.Some? ==> AllDigits(f.value)) && Ends(rest)
    ensures var n := Numeral(isNegative, 0, i, f, None);
            NumberSpan(n + rest).0 == |n| && (f.None? ==> NumberSpan(n + rest).1 == |n|)
  {
    hide NumberSpan, Ends, Numeral;
    var sign := if isNegative then "-" else "";
    NumeralText(isNegative, i, f, rest);
    if f.None? {
      WholeSpan(sign, i, rest);
    } else {
      PointSpan(sign, i, f.value, rest);
    }
  }

  lemma NumeralText(isNegative: bool, i: string, f: Option<string>, rest: string)
    ensures var sign := if isNegative then "-" else "";
            var n := Numeral(isNegative, 0, i, f, None);
            && |n| == |sign| + |i| + (if f.Some? then 1 + |f.value| else 0)
            && n + rest == sign + (i + if f.Some? then "." + f.value + rest else rest)
  {
    assert Zeros(0) == "";
    var sign := if isNegative then "-" else "";
    if f.Some? {
      assert Numeral(isNegative, 0, i, f, None) == sign + i + ("." + f.value);
    } else {
      assert Numeral(isNegative, 0, i, f, None) == sign + i;
    }
  }

  lemma WholeSpan(sign: string, i: string, rest: string)
    requires (sign == "" || sign == "-") && AllDigits(i) && i != "" && Ends(rest)
    ensures NumberSpan(sign + (i + rest)) == (|sign| + |i|, |sign| + |i|)
  {
    hide PrefixLen, MantissaEnd;
    var s := sign + (i + rest);
    MantissaOf(sign, i, rest);
    if rest != "" {
      assert s[|sign| + |i|] == rest[0];
    }
  }

  lemma PointSpan(sign: string, i: string, f: string, rest: string)
    requires (sign == "" || sign == "-") && AllDigits(i) && i != "" && AllDigits(f) && Ends(rest)
    ensures NumberSpan(sign + (i + ("." + f + rest))).0 == |sign| + |i| + 1 + |f|
  {
    hide NumberSpan, Ends, MantissaEnd, PrefixLen, DigitsEnd, AtPoint, AtExponent;
    var tail := "." + f + rest;
    assert tail[0] == '.';
    NoExponentFollows(rest);
    MantissaOf(sign, i, tail);
    PointText(sign, i, f, rest);
    FractionOfNumeral(sign + i + ".", f, rest);
    SpanOfParts(sign + (i + ("." + f + rest)), |sign| + |i| + 1 + |f|);
  }

  lemma NoExponentFollows(rest: string)
    requires Ends(rest)
    ensures !AtExponent(rest, 0)
  {
  }

  lemma PointText(sign: string, i: string, f: string, rest: string)
    ensures var s := sign + (i + ("." + f + rest));
            && s == sign + i + "." + f + rest
            && AtPoint(s, |sign| + |i|)
            && AtExponent(s, |sign| + |i| + 1 + |f|) == AtExponent(rest, 0)
  {
    var s, before := sign + (i + ("." + f + rest)), sign + i + ".";
    assert s == before + f + rest;
    assert before[|before| - 1] == '.';
  }

  lemma SpanOfParts(s: string, c: nat)
    requires PrefixLen(s, IsSign) < MantissaEnd(s) && AtPoint(s, MantissaEnd(s))
    requires DigitsEnd(s, MantissaEnd(s) + 1) == c && !AtExponent(s, c)
    ensures NumberSpan(s).0 == c
  {
  }

  lemma MantissaOf(sign: string, i: string, tail: string)
    requires (sign == "" || sign == "-") && AllDigits(i) && i != "" && (tail != "" ==> !IsDigit(tail[0]))
    ensures PrefixLen(sign + (i + tail), IsSign) == |sign|
    ensures MantissaEnd(sign + (i + tail)) == |sign| + |i|
  {
    var s := sign + (i + tail);
    assert s[|sign|] == i[0];
    PrefixLenIs(s, IsSign, |sign|);
    assert s[|sign|..] == i + tail;
    PrefixLenIs(i + tail, IsDigit, |i|);
  }

  lemma FractionOfNumeral(before: string, f: string, rest: string)
    requires AllDigits(f) && Ends(rest)
    ensures DigitsEnd(before + f + rest, |before|) == |before| + |f|
  {
    assert (before + f + rest)[|before|..] == f + rest;
    PrefixLenIs(f + rest, IsDigit, |f|);
  }

  lemma IntTextIsNumeral(v: int)
    ensures IntText(v) == Numeral(v < 0, 0, DecOf(Abs(v)), None, None)
  {
    assert Zeros(0) == "";
  }

  lemma TakeText(text: string, rest: string)
    ensures (text + rest)[..|text|] == text && (text + rest)[|text|..] == rest
  {
  }

  lemma IntegerRoundTrip(v: int, lo: int, hi: int, rest: string)
    requires lo <= v <= hi && Ends(rest)
    ensures ReadInteger(IntText(v) + rest, lo, hi) == Ok(Parsed(v, rest))
  {
    IntTextIsNumeral(v);
    NumeralSpan(v < 0, DecOf(Abs(v)), None, rest);
    ParseIntText(v, lo, hi);
    TakeText(IntText(v), rest);
  }

  lemma DisplaySpan(value: int, scale: nat, rest: string)
    requires Ends(rest)
    ensures NumberSpan(DisplayDecimal(value, scale) + rest).0 == |DisplayDecimal(value, scale)|
  {
    DisplayWhole(value, scale);
    NumeralSpan(value < 0, DecOf(DivNat(Abs(value), Pow10(scale))), FractionPart(value, scale), rest);
  }

  lemma DisplayWhole(value: int, scale: nat)
    ensures DisplayDecimal(value, scale) ==
            Numeral(value < 0, 0, DecOf(DivNat(Abs(value), Pow10(scale))), FractionPart(value, scale), None)
  {
    hide DisplayDecimal, DecOf, DivNat, Pow10, FractionDigits;
    DisplayParts(value, scale);
    assert Zeros(0) == "";
  }

  lemma DecimalFieldRoundTrip(n: NumberValue, size: DecimalSize, rest: string)
    requires !n.Integer? && n.size == size && InDecimal(n.value, size) && Ends(rest)
    ensures Agrees(DecimalSurvives(n), ReadDecimal(NumberText(n) + rest, size), Value.Number(n), rest)
  {
    DisplaySpan(n.value, size.scale, rest);
    TakeText(DisplayDecimal(n.value, size.scale), rest);
    DecimalRoundTrip(n.value, size);
    MagnitudeFits(n.value, size);
  }

  lemma BinaryRoundTrip(bs: seq<byte>, rest: string)
    requires Ends(rest)
    ensures ReadBinary(Hex.EncodeUpper(bs) + rest) == Ok(Parsed(Value.Binary(bs), rest))
  {
    var text := Hex.EncodeUpper(bs);
    PrefixLenIs(text + rest, IsHexDigit, |text|);
    TakeText(text, rest);
    Hex.DecodeEncode(bs);
  }

  lemma LiteralRoundTrip(word: string, v: Value, rest: string)
    ensures ReadLiteral(word + rest, word, v) == Ok(Parsed(v, rest))
  {
    TakeText(word, rest);
  }

  lemma PairRoundTrip(open: char, close: char, v: Value, rest: string)
    ensures ReadPair([open, close] + rest, open, close, v) == Ok(Parsed(v, rest))
  {
    assert ([open, close] + rest)[1..] == [close] + rest;
    assert ([close] + rest)[1..] == rest;
  }

  lemma BooleanRoundTrip(b: bool, rest: string)
    ensures ReadBoolean((if b then "1" else "0") + rest) == Ok(Parsed(Value.Boolean(b), rest))
  {
    TakeText(if b then "1" else "0", rest);
  }

  lemma TextualRoundTrip(t: DataType, v: Value, rest: string)
    requires (t.String? && v.String?) || (t.Bitmap? && v.Bitmap?) || (t.Interval? && v.Interval?)
    requires Ends(rest)
    ensures Agrees(QuoteSafe(v.text), ReadLeaf(t, LeafText(v, false) + rest), v, rest)
  {
    hide QuoteSafe, ReadString, StringText;
    StringRoundTrip(v.text, rest);
  }

  /** The leaves of the text that the driver writes keep the law of leaves. */
  lemma LeafRoundTrip(t: DataType, v: Value, rest: string)
    requires IsLeaf(t) && LeafHasType(t, v) && Ends(rest)
    ensures Agrees(LeafSurvives(t, v), ReadLeaf(t, LeafText(v, false) + rest), v, rest)
  {
    match t {
      case Null => LiteralRoundTrip("NULL", v, rest);
      case EmptyArray => PairRoundTrip('[', ']', v, rest);
      case EmptyMap => PairRoundTrip('{', '}', Value.EmptyArray, rest);
      case Boolean => BooleanRoundTrip(v.b, rest);
      case Number(k) => IntegerRoundTrip(v.number.value, IntMin(k), IntMax(k), rest);
      case Decimal(d) => DecimalFieldRoundTrip(v.number, d.size, rest);
      case Binary => BinaryRoundTrip(v.bytes, rest);
      case String => TextualRoundTrip(t, v, rest);
      case Bitmap => TextualRoundTrip(t, v, rest);
      case Interval => TextualRoundTrip(t, v, rest);
    }
  }

  lemma HttpIsLawful()
    ensures Lawful(HTTP)
  {
    forall v ensures LeafOpens(HTTP, v) {
      LeafTextHead(v);
    }
    forall t, v, rest ensures LeafAgrees(HTTP, t, v, rest) {
      HttpLeafAgrees(t, v, rest);
    }
  }

  lemma HttpLeafAgrees(t: DataType, v: Value, rest: string)
    ensures LeafAgrees(HTTP, t, v, rest)
  {
    if IsLeaf(t) && LeafHasType(t, v) && Ends(rest) {
      LeafRoundTrip(t, v, rest);
    }
  }

  // ---------------------------------------------------------------------------
  // The nested codec
  // ---------------------------------------------------------------------------

  /** A well-typed value nested in another one is read back, with the cursor left at
  the separator behind it, if and only if it is faithful. */
  lemma NestedValueRoundTrip(t: DataType, v: Value, rest: string)
    requires HasType(HTTP, t, v) && Follows(rest)
    ensures ReadField(HTTP, t, Encode(HTTP, v, false) + rest) == Ok(Parsed(v, rest)) <==> Faithful(HTTP, t, v)
  {
    hide ReadField, Encode, Faithful, HasType, Lawful, Follows;
    HttpIsLawful();
    FieldRoundTrip(HTTP, t, v, rest);
  }

  // ---------------------------------------------------------------------------
  // Columns and rows
  // ---------------------------------------------------------------------------

  /** A text, not quoted, that reads as a null. */
  predicate HoldsNull(v: Value) {
    (v.String? || v.Bitmap? || v.Interval?) && v.text == "NULL"
  }

  /** What prints as NULL at the top of a column: a null, and a text that says so. */
  lemma {:induction false} NullTextIff(v: Value)
    ensures Encode(HTTP, v, true) == "NULL" <==> v.Null? || HoldsNull(v)
  {
    hide EncodeItems, EncodeEntries, NumberText, Hex.EncodeUpper;
    var s := Encode(HTTP, v, true);
    match v
    case Number(n) => NumberTextHead(n);
    case Binary(bs) =>
      if |s| == 4 {
        assert IsHexDigit(s[0]);
      }
    case EmptyArray => assert s[0] == '[';
    case EmptyMap => assert s[0] == '{';
    case Boolean(b) => assert |s| == 1;
    case Array(_) => assert s[0] == '[';
    case Map(_) => assert s[0] == '{';
    case Tuple(_) => assert s[0] == '(';
    case _ =>
  }

  /** The one value without text is the empty binary. */
  lemma {:induction false} EmptyTextIff(v: Value)
    ensures Encode(HTTP, v, false) == "" <==> v == Value.Binary([])
  {
    hide EncodeItems, EncodeEntries;
    if v.Number? {
      NumberTextHead(v.number);
    }
  }

  lemma {:induction false} PrintsAsEmptyIff(items: seq<Value>)
    ensures PrintsAsEmpty(HTTP, items) <==> items == [Value.Binary([])]
  {
    hide Encode;
    if |items| == 1 {
      EmptyTextIff(items[0]);
      assert items == [items[0]];
    }
  }

  /** So an array is faithful if and only if its items are and it is not the array of
  exactly one empty binary. */
  lemma {:induction false} ArrayFaithfulIff(e: DataType, items: seq<Value>)
    requires HasType(HTTP, DataType.Array(e), Value.Array(items))
    ensures Faithful(HTTP, DataType.Array(e), Value.Array(items)) <==>
            items != [Value.Binary([])] && forall i :: 0 <= i < |items| ==> Faithful(HTTP, e, items[i])
  {
    hide PrintsAsEmpty;
    PrintsAsEmptyIff(items);
  }

  /** The values that survive as a whole column, where strings are not quoted: any
  string, any binary, an empty map. What is lost is a null string column, which is
  read as the text NULL, and a nullable text column that holds that text. */
  predicate ColumnFaithful(t: DataType, v: Value)
    requires HasType(HTTP, t, v)
  {
    match t
    case Decimal(_) => DecimalSurvives(v.number)
    case Array(_) => Faithful(HTTP, t, v)
    case Map(_) => Faithful(HTTP, t, v)
    case Tuple(_) => Faithful(HTTP, t, v)
    case Nullable(inner) =>
      if inner.String? then v.String?
      else v.Null? || (!HoldsNull(v) && ColumnFaithful(inner, v))
    case _ => true
  }

  /** A column is read back from the text that `RawRow::from` gives it exactly when
  its value is faithful. */
  lemma {:induction false} ColumnRoundTrip(t: DataType, v: Value)
    requires HasType(HTTP, t, v)
    ensures FromText(t, Encode(HTTP, v, true)) == Ok(v) <==> ColumnFaithful(t, v)
  {
    hide ReadField, Faithful, ParseInteger, ParseDecimal, DisplayDecimal, IntText, ValueOf, Follows;
    hide EncodeItems, EncodeEntries, FaithfulEntries, EntriesHaveType;
    match t {
      case Nullable(inner) =>
        if !v.Null? && !inner.String? {
          ColumnRoundTrip(inner, v);
        }
        NullableColumn(inner, v);
      case Array(_) => ContainerColumn(t, v);
      case Map(_) => ContainerColumn(t, v);
      case Tuple(_) => ContainerColumn(t, v);
      case Binary => Hex.DecodeEncode(v.bytes);
      case Number(k) => ParseIntText(v.number.value, IntMin(k), IntMax(k));
      case Decimal(d) => DecimalColumn(v.number, d.size);
      case _ =>
    }
  }

  lemma {:induction false} NullableColumn(inner: DataType, v: Value)
    requires HasType(HTTP, Nullable(inner), v)
    requires !v.Null? && !inner.String? ==>
               HasType(HTTP, inner, v)
               && (FromText(inner, Encode(HTTP, v, true)) == Ok(v) <==> ColumnFaithful(inner, v))
    ensures FromText(Nullable(inner), Encode(HTTP, v, true)) == Ok(v) <==> ColumnFaithful(Nullable(inner), v)
  {
    hide ReadField, Faithful, ParseInteger, ParseDecimal, NumberText, EncodeItems, EncodeEntries;
    NullTextIff(v);
  }

  lemma DecimalColumn(n: NumberValue, size: DecimalSize)
    requires !n.Integer? && n.size == size && InDecimal(n.value, size)
    ensures ParseDecimal(NumberText(n), size) == Ok(n) <==> DecimalSurvives(n)
  {
    hide ParseDecimal, DisplayDecimal;
    DecimalRoundTrip(n.value, size);
    MagnitudeFits(n.value, size);
  }

  lemma ContainerColumn(t: DataType, v: Value)
    requires HasType(HTTP, t, v) && (t.Array? || t.Map? || t.Tuple?)
    ensures FromText(t, Encode(HTTP, v, true)) == Ok(v) <==> Faithful(HTTP, t, v)
  {
    hide ReadField, Faithful, Lawful;
    HttpIsLawful();
    FieldRoundTrip(HTTP, t, v, "");
    assert Encode(HTTP, v, true) == Encode(HTTP, v, false);
    assert Encode(HTTP, v, false) + "" == Encode(HTTP, v, false);
  }

  /** A row of raw columns, and the values made of them again. */
  function RawRow(vs: seq<Value>): (r: seq<Option<string>>)
    ensures |r| == |vs|
  {
    seq(|vs|, i requires 0 <= i < |vs| => Some(Encode(HTTP, vs[i], true)))
  }

  function FromRawRow(ts: seq<DataType>, row: seq<Option<string>>): Result<seq<Value>> {
    if ts == [] || row == [] then Ok([])
    else
      var v :- FromColumn(ts[0], row[0]);
      var vs :- FromRawRow(ts[1..], row[1..]);
      Ok([v] + vs)
  }

  /** A row survives exactly when each of its columns does. */
  lemma {:induction false} RowRoundTrip(ts: seq<DataType>, vs: seq<Value>)
    requires FieldsHaveType(HTTP, ts, vs)
    ensures FromRawRow(ts, RawRow(vs)) == Ok(vs) <==> forall i :: 0 <= i < |ts| ==> ColumnFaithful(ts[i], vs[i])
  {
    hide FromText, ColumnFaithful, Encode, HasType, FromRawRow;
    if ts == [] {
      NoColumns(ts, vs);
    } else {
      assert RawRow(vs)[1..] == RawRow(vs[1..]);
      assert forall i :: 1 <= i < |ts| ==> ts[i] == ts[1..][i - 1] && vs[i] == vs[1..][i - 1];
      ColumnRoundTrip(ts[0], vs[0]);
      RowRoundTrip(ts[1..], vs[1..]);
      RowHead(ts, vs);
      assert (forall i :: 0 <= i < |ts| ==> ColumnFaithful(ts[i], vs[i])) <==>
             ColumnFaithful(ts[0], vs[0])
             && forall i :: 0 <= i < |ts[1..]| ==> ColumnFaithful(ts[1..][i], vs[1..][i]);
    }
  }

  lemma NoColumns(ts: seq<DataType>, vs: seq<Value>)
    requires ts == [] && vs == []
    ensures FromRawRow(ts, RawRow(vs)) == Ok(vs)
  {
  }

  lemma RowHead(ts: seq<DataType>, vs: seq<Value>)
    requires ts != [] && |ts| == |vs| && RawRow(vs)[1..] == RawRow(vs[1..])
    ensures FromRawRow(ts, RawRow(vs)) == Ok(vs) <==>
            FromText(ts[0], Encode(HTTP, vs[0], true)) == Ok(vs[0])
            && FromRawRow(ts[1..], RawRow(vs[1..])) == Ok(vs[1..])
  {
    var v := FromText(ts[0], Encode(HTTP, vs[0], true));
    var more := FromRawRow(ts[1..], RawRow(vs[1..]));
    assert vs == [vs[0]] + vs[1..];
    if v.Ok? && more.Ok? {
      var all := [v.value] + more.value;
      assert all[0] == v.value && all[1..] == more.value;
    }
  }

  /** A column of a response: an absent text is null where null is a value, and refused
  elsewhere; any other is read as text. */
  predicate ColumnIs(t: DataType, s: Option<string>, v: Value) {
    match s
    case None => (t.Null? || t.Nullable?) && v == Value.Null
    case Some(text) => FromText(t, text) == Ok(v)
  }

  /** A row of a response, absent texts included, is read column by column: it gives `vs` if
  and only if there is one value for each type that has a column, and each column is
  that value. */
  lemma {:induction false} RowDecodes(ts: seq<DataType>, row: seq<Option<string>>, vs: seq<Value>)
    ensures var n := if |ts| <= |row| then |ts| else |row|;
            FromRawRow(ts, row) == Ok(vs) <==> |vs| == n && forall i :: 0 <= i < n ==> ColumnIs(ts[i], row[i], vs[i])
    decreases |ts|
  {
    hide FromText, ColumnIs, FromColumn;
    if ts != [] && row != [] {
      if vs != [] {
        RowDecodes(ts[1..], row[1..], vs[1..]);
        ColumnDecodes(ts[0], row[0], vs[0]);
        assert forall i :: 1 <= i < |vs| ==> vs[i] == vs[1..][i - 1];
        assert forall i :: 1 <= i < |ts| ==> ts[i] == ts[1..][i - 1];
        assert forall i :: 1 <= i < |row| ==> row[i] == row[1..][i - 1];
      }
      RowParts(ts, row, vs);
    }
  }

  lemma ColumnDecodes(t: DataType, s: Option<string>, v: Value)
    ensures FromColumn(t, s) == Ok(v) <==> ColumnIs(t, s, v)
  {
    hide FromText;
  }

  lemma RowParts(ts: seq<DataType>, row: seq<Option<string>>, vs: seq<Value>)
    requires ts != [] && row != []
    ensures FromRawRow(ts, row) == Ok(vs) <==>
            vs != [] && FromColumn(ts[0], row[0]) == Ok(vs[0]) && FromRawRow(ts[1..], row[1..]) == Ok(vs[1..])
  {
    hide FromColumn;
    if vs != [] {
      assert vs == [vs[0]] + vs[1..];
    }
    var v, more := FromColumn(ts[0], row[0]), FromRawRow(ts[1..], row[1..]);
    if v.Ok? && more.Ok? {
      var all := [v.value] + more.value;
      assert all[0] == v.value && all[1..] == more.value;
    }
  }

  /** An absent text is refused where null is no value. */
  lemma NullRefused(t: DataType)
    requires !t.Null? && !t.Nullable?
    ensures FromColumn(t, None) == Err(Rejected)
  {
  }

  /** A row in which some columns are absent and the others hold the texts of `vs` is read as
  `vs` if and only if the absent ones are null and the others faithful. */
  lemma {:induction false} RowWithNulls(ts: seq<DataType>, vs: seq<Value>, row: seq<Option<string>>)
    requires FieldsHaveType(HTTP, ts, vs) && |row| == |ts|
    requires forall i :: 0 <= i < |ts| ==> row[i] == None || row[i] == RawRow(vs)[i]
    ensures FromRawRow(ts, row) == Ok(vs) <==>
            forall i :: 0 <= i < |ts| ==> if row[i] == None then vs[i] == Value.Null else ColumnFaithful(ts[i], vs[i])
  {
    hide FromText, Encode, ColumnFaithful, HasType, FromRawRow;
    RowDecodes(ts, row, vs);
    forall i | 0 <= i < |ts|
      ensures ColumnIs(ts[i], row[i], vs[i]) <==>
              if row[i] == None then vs[i] == Value.Null else ColumnFaithful(ts[i], vs[i])
    {
      if row[i] == None {
        if vs[i].Null? {
          NullHasType(ts[i], vs[i]);
        }
      } else {
        assert row[i] == RawRow(vs)[i];
        ColumnRoundTrip(ts[i], vs[i]);
      }
    }
  }

  lemma NullHasType(t: DataType, v: Value)
    requires HasType(HTTP, t, v) && v.Null?
    ensures t.Null? || t.Nullable?
  {
  }

  // ---------------------------------------------------------------------------
  // The width of decimals
  // ---------------------------------------------------------------------------

  /** The value with each decimal in the width that its precision selects, where that
  width holds it. */
  function Canonical(v: Value): Value
    decreases v, 2
  {
    match v
    case Number(n) =>
      if n.Integer? || Abs(n.value) > DecimalMax(n.size.precision) then v
      else Value.Number(MakeDecimal(n.value, n.size))
    case Array(vs) => Value.Array(CanonicalAll(vs))
    case Map(kvs) => Value.Map(CanonicalEntries(kvs))
    case Tuple(vs) => Value.Tuple(CanonicalAll(vs))
    case _ => v
  }

  function CanonicalAll(vs: seq<Value>): (r: seq<Value>)
    ensures |r| == |vs|
    decreases vs, 1
  {
    seq(|vs|, i requires 0 <= i < |vs| => Canonical(vs[i]))
  }

  function CanonicalEntries(kvs: seq<(Value, Value)>): (r: seq<(Value, Value)>)
    ensures |r| == |kvs|
    decreases kvs, 1
  {
    seq(|kvs|, i requires 0 <= i < |kvs| => CanonicalEntry(kvs[i]))
  }

  function CanonicalEntry(kv: (Value, Value)): (Value, Value)
    decreases kv, 3
  {
    (Canonical(kv.0), Canonical(kv.1))
  }

  /** The text of a decimal does not tell its width. */
  lemma {:induction false} EncodeCanonical(v: Value, raw: bool)
    ensures Encode(HTTP, Canonical(v), raw) == Encode(HTTP, v, raw)
    decreases v, 2
  {
    hide EncodeItems, EncodeEntries;
    match v
    case Array(vs) => ItemsCanonical(vs, true);
    case Map(kvs) => EntriesCanonical(kvs, true);
    case Tuple(vs) => ItemsCanonical(vs, true);
    case _ =>
  }

  lemma {:induction false} ItemsCanonical(vs: seq<Value>, first: bool)
    ensures EncodeItems(HTTP, CanonicalAll(vs), first) == EncodeItems(HTTP, vs, first)
    decreases vs, 1
  {
    hide Encode, Canonical;
    if vs != [] {
      EncodeCanonical(vs[0], false);
      ItemsCanonical(vs[1..], false);
      assert CanonicalAll(vs)[1..] == CanonicalAll(vs[1..]);
    }
  }

  lemma {:induction false} EntriesCanonical(kvs: seq<(Value, Value)>, first: bool)
    ensures EncodeEntries(HTTP, CanonicalEntries(kvs), first) == EncodeEntries(HTTP, kvs, first)
    decreases kvs, 1
  {
    hide Encode, Canonical;
    if kvs != [] {
      EntryCanonical(kvs[0]);
      EntriesCanonical(kvs[1..], false);
      assert CanonicalEntries(kvs)[1..] == CanonicalEntries(kvs[1..]);
    }
  }

  lemma {:induction false} EntryCanonical(kv: (Value, Value))
    ensures EncodeEntry(HTTP, CanonicalEntry(kv)) == EncodeEntry(HTTP, kv)
    decreases kv, 3
  {
    EncodeCanonical(kv.0, false);
    EncodeCanonical(kv.1, false);
  }

  lemma {:induction false} CanonicalTyped(t: DataType, v: Value)
    requires HasType(HTTP, t, v)
    ensures HasType(HTTP, t, Canonical(v))
    decreases t
  {
    hide LeafHasType;
    match t
    case Nullable(inner) =>
      if !v.Null? {
        CanonicalTyped(inner, v);
      }
    case Array(e) =>
      forall i | 0 <= i < |v.items| ensures HasType(HTTP, e, CanonicalAll(v.items)[i]) {
        CanonicalTyped(e, v.items[i]);
      }
    case Map(inner) =>
      forall i | 0 <= i < |v.entries|
        ensures HasType(HTTP, inner.fields[0], CanonicalEntries(v.entries)[i].0)
        ensures HasType(HTTP, inner.fields[1], CanonicalEntries(v.entries)[i].1)
      {
        CanonicalTyped(inner.fields[0], v.entries[i].0);
        CanonicalTyped(inner.fields[1], v.entries[i].1);
      }
    case Tuple(ts) =>
      forall i | 0 <= i < |ts| ensures HasType(HTTP, ts[i], CanonicalAll(v.items)[i]) {
        CanonicalTyped(ts[i], v.items[i]);
      }
    case _ => LeafCanonical(t, v);
  }

  lemma LeafCanonical(t: DataType, v: Value)
    requires IsLeaf(t) && LeafHasType(t, v)
    ensures LeafHasType(t, Canonical(v))
  {
    hide InDecimal, IntMin, IntMax;
  }

  /** A nested value is read back up to the width of its decimals if and only if its
  canonical form is faithful. */
  lemma NestedValueKept(t: DataType, v: Value, rest: string)
    requires HasType(HTTP, t, v) && Follows(rest)
    ensures HasType(HTTP, t, Canonical(v))
    ensures ReadField(HTTP, t, Encode(HTTP, v, false) + rest) == Ok(Parsed(Canonical(v), rest))
            <==> Faithful(HTTP, t, Canonical(v))
  {
    hide ReadField, Encode, Faithful, HasType, Canonical, Follows;
    CanonicalTyped(t, v);
    EncodeCanonical(v, false);
    NestedValueRoundTrip(t, Canonical(v), rest);
  }

  /** The same for the columns of a row: an Arrow row made into raw texts comes back with
  every number kept, and its decimals in the widths that their precisions select. */
  lemma {:induction false} RowKept(ts: seq<DataType>, vs: seq<Value>)
    requires FieldsHaveType(HTTP, ts, vs)
    ensures FieldsHaveType(HTTP, ts, CanonicalAll(vs))
    ensures FromRawRow(ts, RawRow(vs)) == Ok(CanonicalAll(vs))
            <==> forall i :: 0 <= i < |ts| ==> ColumnFaithful(ts[i], CanonicalAll(vs)[i])
  {
    hide Encode, HasType, Canonical, ColumnFaithful, FromRawRow;
    forall i | 0 <= i < |ts|
      ensures HasType(HTTP, ts[i], CanonicalAll(vs)[i])
      ensures Encode(HTTP, CanonicalAll(vs)[i], true) == Encode(HTTP, vs[i], true)
    {
      CanonicalTyped(ts[i], vs[i]);
      EncodeCanonical(vs[i], true);
    }
    assert RawRow(CanonicalAll(vs)) == RawRow(vs);
    RowRoundTrip(ts, CanonicalAll(vs));
  }

  /** A 128-bit decimal of precision at most 19, as an Arrow column holds it, comes back
  with its number in the 64-bit width; only a number beyond `i64` is refused. */
  lemma NarrowDecimalKept(x: int, size: DecimalSize)
    requires InDecimal(x, size) && size.precision <= 19
    ensures var t, n := DataType.Decimal(DecimalDataType.Decimal128(size)), NumberValue.Decimal128(x, size);
            && HasType(HTTP, t, Value.Number(n)) && !ColumnFaithful(t, Value.Number(n))
            && (Abs(x) <= I64_MAX ==>
                  FromText(t, Encode(HTTP, Value.Number(n), true)) == Ok(Value.Number(NumberValue.Decimal64(x, size))))
            && (Abs(x) > I64_MAX ==> FromText(t, Encode(HTTP, Value.Number(n), true)) == Err(Rejected))
  {
    hide ParseDecimal, DisplayDecimal;
    DecimalRoundTrip(x, size);
    assert Abs(x) <= I128_MAX by {
      Pow10Literals();
      Pow10Monotone(size.precision, 38);
    }
  }

  // ---------------------------------------------------------------------------
  // Values that do not come back
  // ---------------------------------------------------------------------------

  /** An array of one empty binary comes back empty. */
  lemma EmptyBinaryLost()
    ensures var t, v := DataType.Array(DataType.Binary), Value.Array([Value.Binary([])]);
            FromText(t, Encode(HTTP, v, true)) == Ok(Value.Array([]))
  {
    hide Encode, ReadItems;
    EmptyBinaryText();
    EmptyItems(HTTP, DataType.Binary, "", true);
    assert "]" + "" == "]" && "[]"[1..] == "]";
  }

  lemma EmptyBinaryText()
    ensures Encode(HTTP, Value.Array([Value.Binary([])]), true) == "[]"
  {
    hide ReadLeaf;
    EmptyTextIff(Value.Binary([]));
    assert [Value.Binary([])][1..] == [];
  }

  /** A null string column comes back as the text NULL, and a text column that holds NULL
  comes back as a null. */
  lemma NullTextsConfused()
    ensures FromText(Nullable(DataType.String), Encode(HTTP, Value.Null, true)) == Ok(Value.String("NULL"))
    ensures FromText(Nullable(DataType.Bitmap), Encode(HTTP, Value.Bitmap("NULL"), true)) == Ok(Value.Null)
  {
  }

  /** An empty map comes back as an empty array. */
  lemma EmptyMapLost(rest: string)
    ensures ReadField(HTTP, DataType.EmptyMap, Encode(HTTP, Value.EmptyMap, false) + rest)
            == Ok(Parsed(Value.EmptyArray, rest))
  {
    PairRoundTrip('{', '}', Value.EmptyArray, rest);
    assert "{}" == ['{', '}'];
  }

  // ---------------------------------------------------------------------------
  // The widths of integers
  // ---------------------------------------------------------------------------

  function Bits(k: NumberDataType): (n: nat)
    requires IsInteger(k)
    ensures n >= 8
  {
    match k
    case Int8 => 8
    case UInt8 => 8
    case Int16 => 16
    case UInt16 => 16
    case Int32 => 32
    case UInt32 => 32
    case _ => 64
  }

  predicate HasSign(k: NumberDataType) {
    k.Int8? || k.Int16? || k.Int32? || k.Int64?
  }

  lemma IntegerBounds(k: NumberDataType)
    requires IsInteger(k)
    ensures IntMin(k) == if HasSign(k) then -(Pow2(Bits(k) - 1) as int) else 0
    ensures IntMax(k) == Pow2(if HasSign(k) then Bits(k) - 1 else Bits(k)) - 1
  {
    hide Pow2;
    SmallPowersOfTwo();
    Pow2Add(1, 7);
    Pow2Add(8, 8);
    Pow2Add(1, 15);
    Pow2Add(16, 16);
    Pow2Add(1, 31);
    Pow2Add(32, 32);
    Pow2Add(1, 63);
  }

  /** A column of an integer type takes a sign or none and digits, for the integers that its
  bits hold, and refuses all others. */
  lemma IntegerColumn(k: NumberDataType, sign: string, digits: string)
    requires IsInteger(k) && sign in ["", "+", "-"] && digits != "" && AllDigits(digits)
    ensures var v: int := if sign == "-" then -(NatOf(digits) as int) else NatOf(digits);
            FromText(DataType.Number(k), sign + digits) ==
            if (if HasSign(k) then -(Pow2(Bits(k) - 1) as int) <= v < Pow2(Bits(k) - 1)
                else sign != "-" && v < Pow2(Bits(k)))
            then Ok(Value.Number(Integer(k, v))) else Err(Rejected)
  {
    hide Pow2, ParseInteger, Bits, IntMin, IntMax, FromText, NatOf;
    IntegerBounds(k);
    IntegerText(k, sign + digits);
    ParseIntegerIs(sign, digits, IntMin(k), IntMax(k));
    if HasSign(k) {
      Pow2Positive(Bits(k) - 1);
    }
  }

  lemma IntegerText(k: NumberDataType, s: string)
    requires IsInteger(k)
    ensures FromText(DataType.Number(k), s) ==
            match ParseInteger(s, IntMin(k), IntMax(k))
            case Ok(v) => Ok(Value.Number(Integer(k, v)))
            case Err(e) => Err(e)
  {
    hide ParseInteger;
  }

  lemma {:induction false} Pow2Positive(n: nat)
    ensures Pow2(n) > 0
  {
    if n > 0 {
      Pow2Positive(n - 1);
    }
  }

  /** Of all texts only `1` is true. */
  lemma OnlyOneIsTrue(s: string)
    ensures FromText(DataType.Boolean, s) == Ok(Value.Boolean(true)) <==> s == "1"
    ensures FromText(DataType.Boolean, s) == Ok(Value.Boolean(false)) <==> s != "1"
  {
  }

  // ---------------------------------------------------------------------------
  // What panics
  // ---------------------------------------------------------------------------

  lemma {:induction false} QuotedNeverPanics(s: string, quote: char)
    ensures QuotedBody(s, quote) != Err(Panicked)
    decreases |s|
  {
    if |s| > 1 {
      QuotedNeverPanics(s[1..], quote);
      QuotedNeverPanics(s[2..], quote);
    }
  }

  lemma {:induction false} HexNeverPanics(s: string)
    ensures Hex.Decode(s) != Err(Panicked)
    decreases |s|
  {
    if |s| >= 2 {
      HexNeverPanics(s[2..]);
    }
  }

  lemma LeafNeverPanics(t: DataType, s: string)
    requires IsLeaf(t) && !t.Decimal?
    ensures ReadLeaf(t, s) != Err(Panicked)
  {
    hide QuotedBody, Hex.Decode, NumberSpan, HexSpan, NatOf;
    if t.Binary? {
      HexNeverPanics(s[..HexSpan(s)]);
    } else if s != "" && (t.String? || t.Bitmap? || t.Interval?) {
      QuotedNeverPanics(s[1..], '"');
      QuotedNeverPanics(s[1..], '\'');
    }
  }

  lemma TextNeverPanics(t: DataType, s: string)
    requires IsLeaf(t) && !t.Decimal?
    ensures FromText(t, s) != Err(Panicked)
  {
    hide ReadField, Hex.Decode, NatOf, ParseDecimal;
    HexNeverPanics(s);
  }

  /** Of all the values without parts, no text but that of a decimal makes a reader panic. */
  lemma OnlyDecimalsPanic(t: DataType, s: string)
    requires IsLeaf(t) && !t.Decimal?
    ensures ReadLeaf(t, s) != Err(Panicked) && FromText(t, s) != Err(Panicked)
  {
    hide ReadLeaf, FromText;
    LeafNeverPanics(t, s);
    TextNeverPanics(t, s);
  }

  /** A map whose type holds no pair is a panic, whatever stands in its braces. */
  lemma MapNeedsPair(inner: DataType, s: string)
    requires !inner.Tuple?
    ensures ReadField(HTTP, DataType.Map(inner), "{" + s) == Err(Panicked)
  {
  }
}
