/** The text of a data type: its printer, the descriptor parser `parse_type_desc` and the
conversion of a descriptor into a type (`core/src/schema.rs`). */
module TypeText {
  import opened Results
  import opened Digits
  import opened Schema

  /** What the parser makes of a type text: a name, its arguments, and whether NULL
  stands behind. */
  datatype TypeDesc = TypeDesc(name: string, nullable: bool, args: seq<TypeDesc>)

  // ---------------------------------------------------------------------------
  // Parsing
  // ---------------------------------------------------------------------------

  /** The parser within a text: the depth of parentheses, the token since the last
  separator at the outer level, and what has been recognised. */
  datatype ScanState = ScanState(depth: int, token: string, name: string, args: seq<TypeDesc>)

  const START := ScanState(0, "", "", [])

  function Parse(s: string): Result<TypeDesc>
    decreases |s|, 1, 0
  {
    ScanType(s, START)
  }

  function ScanType(s: string, st: ScanState): Result<TypeDesc>
    decreases |st.token| + |s|, 0, |s|
  {
    if s == "" then Finish(st)
    else if s[0] == '(' then
      ScanType(s[1..], if st.depth == 0 then ScanState(1, "", st.token, st.args)
                       else st.(depth := st.depth + 1, token := st.token + "("))
    else if s[0] == ')' then
      if st.depth != 1 then ScanType(s[1..], st.(depth := st.depth - 1, token := st.token + ")"))
      else if st.token == "" then ScanType(s[1..], st.(depth := 0))
      else
        var arg :- Parse(st.token);
        ScanType(s[1..], ScanState(0, "", st.name, st.args + [arg]))
    else if s[0] == ',' && st.depth == 1 then
      var arg :- Parse(st.token);
      ScanType(s[1..], st.(token := "", args := st.args + [arg]))
    else if s[0] == ' ' && st.depth == 0 then
      ScanType(s[1..], st.(token := "", name := if st.token == "" then st.name else st.token))
    else ScanType(s[1..], st.(token := st.token + [s[0]]))
  }

  /** At the end the parentheses must balance, and a token behind a name is NULL. */
  function Finish(st: ScanState): Result<TypeDesc> {
    if st.depth != 0 then Err(Rejected)
    else if st.token == "" then Ok(TypeDesc(st.name, false, st.args))
    else if st.name == "" then Ok(TypeDesc(st.token, false, st.args))
    else if st.token == "NULL" then Ok(TypeDesc(st.name, true, st.args))
    else Err(Rejected)
  }

  /** The loop of `parse_type_desc`, where a token is a slice from `start`. For every
  text, balanced or not, each slice is within the text and each recursive call is on
  a shorter one. */
  method ParseTypeDesc(s: string) returns (r: Result<TypeDesc>)
    ensures r == Parse(s)
    decreases |s|
  {
    hide Finish;
    var name := "";
    var args: seq<TypeDesc> := [];
    var depth := 0;
    var start := 0;
    assert s[0..] == s && s[0..0] == "";
    for i := 0 to |s|
      invariant start <= i
      invariant ScanType(s[i..], ScanState(depth, s[start..i], name, args)) == Parse(s)
    {
      var c := s[i];
      assert s[i..][1..] == s[i + 1..];
      assert s[start..i] + [c] == s[start..i + 1];
      assert s[i + 1..i + 1] == "";
      if c == '(' {
        if depth == 0 {
          name := s[start..i];
          start := i + 1;
        }
        depth := depth + 1;
      } else if c == ')' {
        depth := depth - 1;
        if depth == 0 {
          if s[start..i] != "" {
            var arg := ParseTypeDesc(s[start..i]);
            if arg.Err? {
              return arg;
            }
            args := args + [arg.value];
          }
          start := i + 1;
        }
      } else if c == ',' && depth == 1 {
        var arg := ParseTypeDesc(s[start..i]);
        if arg.Err? {
          return arg;
        }
        args := args + [arg.value];
        start := i + 1;
      } else if c == ' ' && depth == 0 {
        if s[start..i] != "" {
          name := s[start..i];
        }
        start := i + 1;
      }
    }
    r := Finish(ScanState(depth, s[start..], name, args));
    assert s[|s|..] == "" && s[start..|s|] == s[start..];
  }

  // ---------------------------------------------------------------------------
  // Printing
  // ---------------------------------------------------------------------------

  function NumberName(n: NumberDataType): string {
    match n
    case UInt8 => "UInt8"
    case UInt16 => "UInt16"
    case UInt32 => "UInt32"
    case UInt64 => "UInt64"
    case Int8 => "Int8"
    case Int16 => "Int16"
    case Int32 => "Int32"
    case Int64 => "Int64"
    case Float32 => "Float32"
    case Float64 => "Float64"
  }

  /** Every map holds the pair of its types; the printer has no text for another. */
  predicate WellFormed(t: DataType) {
    match t
    case Nullable(u) => WellFormed(u)
    case Array(u) => WellFormed(u)
    case Map(u) => IsPair(u) && WellFormed(u.fields[0]) && WellFormed(u.fields[1])
    case Tuple(ts) => forall i :: 0 <= i < |ts| ==> WellFormed(ts[i])
    case _ => true
  }

  function Print(t: DataType): string
    requires WellFormed(t)
    decreases t, 1
  {
    match t
    case Null => "Null"
    case EmptyArray => "EmptyArray"
    case EmptyMap => "EmptyMap"
    case Boolean => "Boolean"
    case Binary => "Binary"
    case String => "String"
    case Number(n) => NumberName(n)
    case Decimal(d) => "Decimal(" + DecOf(d.size.precision) + ", " + DecOf(d.size.scale) + ")"
    case Timestamp => "Timestamp"
    case TimestampTz => "Timestamp_Tz"
    case Date => "Date"
    case Nullable(u) => "Nullable(" + Print(u) + ")"
    case Array(u) => "Array(" + Print(u) + ")"
    case Map(u) => "Map(" + Print(u.fields[0]) + ", " + Print(u.fields[1]) + ")"
    case Tuple(ts) => "Tuple(" + PrintAll(ts) + ")"
    case Variant => "Variant"
    case Bitmap => "Bitmap"
    case Geometry => "Geometry"
    case Geography => "Geography"
    case Interval => "Interval"
    case Vector(n) => "Vector(" + DecOf(n) + ")"
  }

  /** Types with a comma and a space between them. */
  function PrintAll(ts: seq<DataType>): string
    requires forall i :: 0 <= i < |ts| ==> WellFormed(ts[i])
    decreases ts, 0
  {
    if ts == [] then ""
    else if |ts| == 1 then Print(ts[0])
    else Print(ts[0]) + (", " + PrintAll(ts[1..]))
  }

  // ---------------------------------------------------------------------------
  // From a descriptor to a type
  // ---------------------------------------------------------------------------

  function FromDesc(d: TypeDesc): Result<DataType>
    decreases d, 1
  {
    var t :- FromBare(d.name, d.args);
    Ok(if d.nullable then Nullable(t) else t)
  }

  function FromAll(ds: seq<TypeDesc>): Result<seq<DataType>>
    decreases ds, 0
  {
    if ds == [] then Ok([])
    else
      var t :- FromDesc(ds[0]);
      var ts :- FromAll(ds[1..]);
      Ok([t] + ts)
  }

  function MakeDecimalType(precision: nat, scale: nat): DecimalDataType
    requires precision < 256 && scale < 256
  {
    if precision <= 38 then Decimal128(DecimalSize(precision, scale)) else Decimal256(DecimalSize(precision, scale))
  }

  function ParseU8(s: string): (r: Result<int>)
    ensures r.Ok? ==> 0 <= r.value < 256
  {
    ParseInteger(s, 0, 255)
  }

  function FromBare(name: string, args: seq<TypeDesc>): Result<DataType>
    decreases args, 2
  {
    if name == "NULL" || name == "Null" then Ok(Null)
    else if name == "Boolean" then Ok(Boolean)
    else if name == "Binary" then Ok(Binary)
    else if name == "String" then Ok(String)
    else if name == "Int8" then Ok(Number(Int8))
    else if name == "Int16" then Ok(Number(Int16))
    else if name == "Int32" then Ok(Number(Int32))
    else if name == "Int64" then Ok(Number(Int64))
    else if name == "UInt8" then Ok(Number(UInt8))
    else if name == "UInt16" then Ok(Number(UInt16))
    else if name == "UInt32" then Ok(Number(UInt32))
    else if name == "UInt64" then Ok(Number(UInt64))
    else if name == "Float32" then Ok(Number(Float32))
    else if name == "Float64" then Ok(Number(Float64))
    else if name == "Decimal" then
      if |args| == 0 then Err(Panicked)
      else
        var precision :- ParseU8(args[0].name);
        if |args| == 1 then Err(Panicked)
        else
          var scale :- ParseU8(args[1].name);
          Ok(Decimal(MakeDecimalType(precision, scale)))
    else if name == "Timestamp" then Ok(Timestamp)
    else if name == "Date" then Ok(Date)
    else if name == "Nullable" then
      if |args| != 1 then Err(Rejected)
      else
        var t :- FromDesc(args[0]);
        Ok(Nullable(t))
    else if name == "Array" then
      if |args| != 1 then Err(Rejected)
      else if args[0].name == "Nothing" then Ok(EmptyArray)
      else
        var t :- FromDesc(args[0]);
        Ok(Array(t))
    else if name == "Map" then
      if |args| == 1 && args[0].name == "Nothing" then Ok(EmptyMap)
      else if |args| != 2 then Err(Rejected)
      else
        var k :- FromDesc(args[0]);
        var v :- FromDesc(args[1]);
        Ok(Map(Tuple([k, v])))
    else if name == "Tuple" then
      var ts :- FromAll(args);
      Ok(Tuple(ts))
    else if name == "Variant" then Ok(Variant)
    else if name == "Bitmap" then Ok(Bitmap)
    else if name == "Geometry" then Ok(Geometry)
    else if name == "Geography" then Ok(Geography)
    else if name == "Interval" then Ok(Interval)
    else if name == "Vector" then
      if |args| == 0 then Err(Panicked)
      else
        var n :- ParseInteger(args[0].name, 0, 0xFFFF_FFFF_FFFF_FFFF);
        if 0 <= n < 0x1_0000_0000_0000_0000 then Ok(Vector(n)) else Err(Rejected)
    else if name == "Timestamp_Tz" then Ok(TimestampTz)
    else Err(Rejected)
  }

  /** A type from its text (`Field::try_from`). */
  function FromText(s: string): Result<DataType> {
    var d :- Parse(s);
    FromDesc(d)
  }
}
