/** The text of a value without parts: numbers, strings, binaries, booleans and the
empty collections (`sql/src/value/format/result_encode.rs`,
`sql/src/value/string_decoder.rs`); and the text of a whole column. */
module ValueText {
  import opened Results
  import opened Digits
  import opened Cursors
  import opened Decimals
  import opened Schema
  import opened Values
  import opened NestedText
  import Hex

  // ---------------------------------------------------------------------------
  // Writing
  // ---------------------------------------------------------------------------

  /** Every `quote` preceded by a backslash. */
  function Escaped(s: string, quote: char): string {
    if s == "" then ""
    else (if s[0] == quote then ['\\', quote] else [s[0]]) + Escaped(s[1..], quote)
  }

  function StringText(s: string, raw: bool): string {
    if raw then s else "\"" + Escaped(s, '"') + "\""
  }

  function NumberText(n: NumberValue): string {
    match n
    case Integer(_, v) => IntText(v)
    case Decimal64(v, size) => DisplayDecimal(v, size.scale)
    case Decimal128(v, size) => DisplayDecimal(v, size.scale)
    case Decimal256(v, size) => DisplayDecimal(v, size.scale)
  }

  /** The text of a value without parts. */
  function LeafText(v: Value, raw: bool): string {
    match v
    case Null => "NULL"
    case EmptyArray => "[]"
    case EmptyMap => "{}"
    case Boolean(b) => if b then "1" else "0"
    case Number(n) => NumberText(n)
    case Binary(bs) => Hex.EncodeUpper(bs)
    case String(s) => StringText(s, raw)
    case Bitmap(s) => StringText(s, raw)
    case Interval(s) => StringText(s, raw)
    case _ => ""
  }

  // ---------------------------------------------------------------------------
  // Reading
  // ---------------------------------------------------------------------------

  function ReadLiteral(s: string, word: string, v: Value): (r: Reading<Value>)
    ensures r.Ok? ==> |r.value.rest| <= |s|
  {
    if StartsWith(s, word) then Ok(Parsed(v, s[|word|..])) else Err(Rejected)
  }

  function ReadBoolean(s: string): (r: Reading<Value>)
    ensures r.Ok? ==> |r.value.rest| <= |s|
  {
    if StartsWith(s, "1") then Ok(Parsed(Value.Boolean(true), s[1..]))
    else ReadLiteral(s, "0", Value.Boolean(false))
  }

  /** A text in double quotes or, failing that, in single quotes. */
  function ReadString(s: string): (r: Reading<string>)
    ensures r.Ok? ==> |r.value.rest| <= |s|
  {
    var double := QuotedText(s, '"');
    if double.Ok? then double else QuotedText(s, '\'')
  }

  function ReadDecimal(s: string, size: DecimalSize): (r: Reading<Value>)
    ensures r.Ok? ==> |r.value.rest| <= |s|
  {
    var n := NumberSpan(s).0;
    var d :- ParseDecimal(s[..n], size);
    Ok(Parsed(Value.Number(d), s[n..]))
  }

  function ReadBinary(s: string): (r: Reading<Value>)
    ensures r.Ok? ==> |r.value.rest| <= |s|
  {
    var n := HexSpan(s);
    var bs :- Hex.Decode(s[..n]);
    Ok(Parsed(Value.Binary(bs), s[n..]))
  }

  function ReadPair(s: string, open: char, close: char, v: Value): (r: Reading<Value>)
    ensures r.Ok? ==> |r.value.rest| <= |s|
  {
    var s1 :- Expect(s, open);
    var s2 :- Expect(s1, close);
    Ok(Parsed(v, s2))
  }

  /** Reads a value without parts. The types whose text is another library's
  business are refused. */
  function ReadLeaf(t: DataType, s: string): (r: Reading<Value>)
    ensures r.Ok? ==> |r.value.rest| <= |s|
  {
    match t
    case Null => ReadLiteral(s, "NULL", Value.Null)
    case EmptyArray => ReadPair(s, '[', ']', Value.EmptyArray)
    case EmptyMap => ReadPair(s, '{', '}', Value.EmptyArray)
    case Boolean => ReadBoolean(s)
    case Number(k) =>
      if IsInteger(k) then Mapped(ReadInteger(s, IntMin(k), IntMax(k)), v => Value.Number(Integer(k, v)))
      else Err(Rejected)
    case Decimal(d) => ReadDecimal(s, d.size)
    case String => Mapped(ReadString(s), x => Value.String(x))
    case Bitmap => Mapped(ReadString(s), x => Value.Bitmap(x))
    case Interval => Mapped(ReadString(s), x => Value.Interval(x))
    case Binary => ReadBinary(s)
    case _ => Err(Rejected)
  }

  // ---------------------------------------------------------------------------
  // Which values there are, and which survive
  // ---------------------------------------------------------------------------

  predicate LeafHasType(t: DataType, v: Value) {
    match t
    case Null => v.Null?
    case EmptyArray => v.EmptyArray?
    case EmptyMap => v.EmptyMap?
    case Boolean => v.Boolean?
    case Binary => v.Binary?
    case String => v.String?
    case Bitmap => v.Bitmap?
    case Interval => v.Interval?
    case Number(k) =>
      IsInteger(k) && v.Number? && v.number.Integer? && v.number.kind == k && IntMin(k) <= v.number.value <= IntMax(k)
    case Decimal(d) =>
      v.Number? && WidthHolds(v.number) && v.number.size == d.size && InDecimal(v.number.value, d.size)
    case _ => false
  }

  /** A decimal survives in the width that its precision selects, with a magnitude that
  this width holds; in any other width it comes back in the selected one. */
  predicate DecimalSurvives(n: NumberValue) {
    n.Integer? || (n == MakeDecimal(n.value, n.size) && Abs(n.value) <= DecimalMax(n.size.precision))
  }

  /** The strings that survive being quoted: a backslash stands only before a
  character that is neither a quote nor decoded, or twice before a quote; a quote
  stands only there. */
  predicate QuoteSafe(s: string) {
    if s == "" then true
    else if s[0] == '"' then false
    else if s[0] != '\\' then QuoteSafe(s[1..])
    else if |s| == 1 || s[1] == '"' then false
    else if s[1] == '\\' then |s| > 2 && s[2] == '"' && QuoteSafe(s[3..])
    else !IsEscape(s[1]) && QuoteSafe(s[2..])
  }

  /** The characters that the reader decodes after a backslash. */
  predicate IsEscape(c: char) {
    c == 'n' || c == 't' || c == 'r' || c == '0' || c == '\'' || c == '\\'
  }

  predicate LeafSurvives(t: DataType, v: Value) {
    match v
    case EmptyMap => false
    case String(s) => QuoteSafe(s)
    case Bitmap(s) => QuoteSafe(s)
    case Interval(s) => QuoteSafe(s)
    case Number(n) => DecimalSurvives(n)
    case _ => true
  }

  /** The leaves of the text that the server sends and `RawRow::from` writes. */
  const HTTP: LeafCodec := Leaves(ReadLeaf, LeafText, LeafHasType, LeafSurvives)

  // ---------------------------------------------------------------------------
  // A column value from the text of the response
  // ---------------------------------------------------------------------------

  function ValueOf<T>(r: Reading<T>): Result<T> {
    match r
    case Ok(p) => Ok(p.value)
    case Err(e) => Err(e)
  }

  function FromText(t: DataType, s: string): Result<Value> {
    match t
    case Null => Ok(Value.Null)
    case EmptyArray => Ok(Value.EmptyArray)
    case EmptyMap => Ok(Value.EmptyMap)
    case Boolean => Ok(Value.Boolean(s == "1"))
    case Binary =>
      var bs :- Hex.Decode(s);
      Ok(Value.Binary(bs))
    case String => Ok(Value.String(s))
    case Bitmap => Ok(Value.Bitmap(s))
    case Interval => Ok(Value.Interval(s))
    case Number(k) =>
      if !IsInteger(k) then Err(Rejected)
      else
        var v :- ParseInteger(s, IntMin(k), IntMax(k));
        Ok(Value.Number(Integer(k, v)))
    case Decimal(d) =>
      var v :- ParseDecimal(s, d.size);
      Ok(Value.Number(v))
    case Array(_) => ValueOf(ReadField(HTTP, t, s))
    case Map(_) => ValueOf(ReadField(HTTP, t, s))
    case Tuple(_) => ValueOf(ReadField(HTTP, t, s))
    case Nullable(inner) =>
      if inner.String? then Ok(Value.String(s))
      else if s == "NULL" then Ok(Value.Null)
      else FromText(inner, s)
    case _ => Err(Rejected)
  }

  /** A column of a response row, where an absent text stands for NULL. */
  function FromColumn(t: DataType, s: Option<string>): Result<Value> {
    match s
    case Some(text) => FromText(t, text)
    case None => if t.Null? || t.Nullable? then Ok(Value.Null) else Err(Rejected)
  }
}
