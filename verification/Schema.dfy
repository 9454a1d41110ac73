/** The data types of a result column (`core/src/schema.rs`). */
module Schema {
  type U8 = n: nat | n < 256

  type U64 = n: nat | n < 0x1_0000_0000_0000_0000

  datatype NumberDataType =
    UInt8 | UInt16 | UInt32 | UInt64 | Int8 | Int16 | Int32 | Int64 | Float32 | Float64

  datatype DecimalSize = DecimalSize(precision: U8, scale: U8)

  datatype DecimalDataType =
    | Decimal64(size: DecimalSize)
    | Decimal128(size: DecimalSize)
    | Decimal256(size: DecimalSize)

  datatype DataType =
    | Null
    | EmptyArray
    | EmptyMap
    | Boolean
    | Binary
    | String
    | Number(number: NumberDataType)
    | Decimal(decimal: DecimalDataType)
    | Timestamp
    | TimestampTz
    | Date
    | Nullable(inner: DataType)
    | Array(inner: DataType)
    | Map(inner: DataType)
    | Tuple(fields: seq<DataType>)
    | Variant
    | Bitmap
    | Geometry
    | Geography
    | Interval
    | Vector(dimension: U64)

  /** The least value of an integer type; 0 for the unsigned ones. */
  function IntMin(n: NumberDataType): int {
    match n
    case Int8 => -0x80
    case Int16 => -0x8000
    case Int32 => -0x8000_0000
    case Int64 => -0x8000_0000_0000_0000
    case _ => 0
  }

  function IntMax(n: NumberDataType): int {
    match n
    case Int8 => 0x7F
    case Int16 => 0x7FFF
    case Int32 => 0x7FFF_FFFF
    case Int64 => 0x7FFF_FFFF_FFFF_FFFF
    case UInt8 => 0xFF
    case UInt16 => 0xFFFF
    case UInt32 => 0xFFFF_FFFF
    case _ => 0xFFFF_FFFF_FFFF_FFFF
  }

  predicate IsInteger(n: NumberDataType) {
    !n.Float32? && !n.Float64?
  }

  /** A map type holds the pair of its key and value types. */
  predicate IsPair(t: DataType) {
    t.Tuple? && |t.fields| == 2
  }
}
