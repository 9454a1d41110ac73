/** The values of a result row (`sql/src/value/base.rs`), without those whose
text is the business of other libraries. */
module Values {
  import opened Schema

  newtype byte = n: int | 0 <= n < 256

  datatype NumberValue =
    | Integer(kind: NumberDataType, value: int)
    | Decimal64(value: int, size: DecimalSize)
    | Decimal128(value: int, size: DecimalSize)
    | Decimal256(value: int, size: DecimalSize)

  datatype Value =
    | Null
    | EmptyArray
    | EmptyMap
    | Boolean(b: bool)
    | Binary(bytes: seq<byte>)
    | String(text: string)
    | Bitmap(text: string)
    | Interval(text: string)
    | Number(number: NumberValue)
    | Array(items: seq<Value>)
    | Map(entries: seq<(Value, Value)>)
    | Tuple(items: seq<Value>)
}
