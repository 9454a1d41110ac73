/** The text of nested values: how `write_with_option`
(`sql/src/value/format/result_encode.rs`) and `ValueDecoder::read_field`
(`sql/src/value/string_decoder.rs`) write and read arrays, maps, tuples and
nullables, whatever the text of the values inside them. */
module NestedText {
  import opened Results
  import opened Cursors
  import opened Schema
  import opened Values

  type Reading<T> = Result<Parsed<T>>

  /** The values without parts: how they are read and written (`raw` at the top,
  where strings are not quoted), which belong to a type, and which survive being
  written and read inside another value. */
  datatype Leaves = Leaves(
    read: (DataType, string) -> Reading<Value>,
    write: (Value, bool) -> string,
    types: (DataType, Value) -> bool,
    survives: (DataType, Value) -> bool)

  ghost predicate OnlyConsumes(read: (DataType, string) -> Reading<Value>) {
    forall t, s :: read(t, s).Ok? ==> |read(t, s).value.rest| <= |s|
  }

  type LeafCodec = c: Leaves | OnlyConsumes(c.read)
    witness Leaves((t, s) => Err(Rejected), (v, raw) => "", (t, v) => false, (t, v) => false)

  function Mapped<T, U>(r: Reading<T>, f: T -> U): Reading<U> {
    match r
    case Ok(p) => Ok(Parsed(f(p.value), p.rest))
    case Err(e) => Err(e)
  }

  // ---------------------------------------------------------------------------
  // Writing
  // ---------------------------------------------------------------------------

  function Encode(c: LeafCodec, v: Value, raw: bool): string
    decreases v, 2
  {
    match v
    case Array(vs) => "[" + EncodeItems(c, vs, true) + "]"
    case Map(kvs) => "{" + EncodeEntries(c, kvs, true) + "}"
    case Tuple(vs) => "(" + EncodeItems(c, vs, true) + ")"
    case _ => c.write(v, raw)
  }

  /** Items with a comma before each but the first. */
  function EncodeItems(c: LeafCodec, vs: seq<Value>, first: bool): string
    decreases vs, 1
  {
    if vs == [] then ""
    else (if first then "" else ",") + Encode(c, vs[0], false) + EncodeItems(c, vs[1..], false)
  }

  function EncodeEntries(c: LeafCodec, kvs: seq<(Value, Value)>, first: bool): string
    decreases kvs, 1
  {
    if kvs == [] then ""
    else (if first then "" else ",") + EncodeEntry(c, kvs[0]) + EncodeEntries(c, kvs[1..], false)
  }

  function EncodeEntry(c: LeafCodec, kv: (Value, Value)): string
    decreases kv, 3
  {
    Encode(c, kv.0, false) + ":" + Encode(c, kv.1, false)
  }

  // ---------------------------------------------------------------------------
  // Reading
  // ---------------------------------------------------------------------------

  /** Reads a value of type `t` off the front of `s`. */
  function ReadField(c: LeafCodec, t: DataType, s: string): (r: Reading<Value>)
    ensures r.Ok? ==> |r.value.rest| <= |s|
    decreases t, 2
  {
    match t
    case Array(e) => ReadArray(c, e, s)
    case Map(inner) => ReadMap(c, inner, s)
    case Tuple(ts) => ReadTuple(c, ts, s)
    case Nullable(inner) =>
      if StartsWith(s, "NULL") then Ok(Parsed(Value.Null, s[4..])) else ReadField(c, inner, s)
    case _ => c.read(t, s)
  }

  function ReadArray(c: LeafCodec, e: DataType, s: string): (r: Reading<Value>)
    ensures r.Ok? ==> |r.value.rest| <= |s|
    decreases e, 4
  {
    var s1 :- Expect(s, '[');
    Mapped(ReadItems(c, e, s1, true), vs => Value.Array(vs))
  }

  /** The rounds of the loop of `read_array`, the first of which takes no comma. */
  function ReadItems(c: LeafCodec, e: DataType, s: string, first: bool): (r: Reading<seq<Value>>)
    ensures r.Ok? ==> |r.value.rest| <= |s|
    decreases e, 3, |s|, first
  {
    var s1 := SkipWhite(s);
    if s1 != "" && s1[0] == ']' then Ok(Parsed([], s1[1..]))
    else
      var s2 :- if first then Ok(s1) else Expect(s1, ',');
      var p :- ReadField(c, e, SkipWhite(s2));
      var q :- ReadItems(c, e, p.rest, false);
      Ok(Parsed([p.value] + q.value, q.rest))
  }

  function ReadMap(c: LeafCodec, inner: DataType, s: string): (r: Reading<Value>)
    ensures r.Ok? ==> |r.value.rest| <= |s|
    decreases inner, 4
  {
    var s1 :- Expect(s, '{');
    if !inner.Tuple? then Err(Panicked)
    else Mapped(ReadEntries(c, inner, s1, true), kvs => Value.Map(kvs))
  }

  /** The rounds of the loop of `read_map`; indexing the pair of types panics
  when it is not one. */
  function ReadEntries(c: LeafCodec, inner: DataType, s: string, first: bool): (r: Reading<seq<(Value, Value)>>)
    requires inner.Tuple?
    ensures r.Ok? ==> |r.value.rest| <= |s|
    decreases inner, 3, |s|, first
  {
    var s1 := SkipWhite(s);
    if s1 != "" && s1[0] == '}' then Ok(Parsed([], s1[1..]))
    else
      var s2 :- if first then Ok(s1) else Expect(s1, ',');
      var p :- ReadEntry(c, inner, SkipWhite(s2));
      var q :- ReadEntries(c, inner, p.rest, false);
      Ok(Parsed([p.value] + q.value, q.rest))
  }

  /** The key, the colon and the value of one entry. */
  function ReadEntry(c: LeafCodec, inner: DataType, s: string): (r: Reading<(Value, Value)>)
    requires inner.Tuple?
    ensures r.Ok? ==> |r.value.rest| < |s|
    decreases inner, 2
  {
    if |inner.fields| == 0 then Err(Panicked)
    else
      var k :- ReadField(c, inner.fields[0], s);
      var s1 :- Expect(SkipWhite(k.rest), ':');
      if |inner.fields| == 1 then Err(Panicked)
      else
        var v :- ReadField(c, inner.fields[1], SkipWhite(s1));
        Ok(Parsed((k.value, v.value), v.rest))
  }

  function ReadTuple(c: LeafCodec, ts: seq<DataType>, s: string): (r: Reading<Value>)
    ensures r.Ok? ==> |r.value.rest| <= |s|
    decreases ts, 4
  {
    var s1 :- Expect(s, '(');
    Mapped(ReadFields(c, ts, s1, true), vs => Value.Tuple(vs))
  }

  function ReadFields(c: LeafCodec, ts: seq<DataType>, s: string, first: bool): (r: Reading<seq<Value>>)
    ensures r.Ok? ==> |r.value.rest| <= |s|
    decreases ts, 3
  {
    if ts == [] then
      var s1 :- Expect(s, ')');
      Ok(Parsed([], s1))
    else
      var s1 := SkipWhite(s);
      var s2 :- if first then Ok(s1) else Expect(s1, ',');
      var p :- ReadField(c, ts[0], SkipWhite(s2));
      var q :- ReadFields(c, ts[1..], p.rest, false);
      Ok(Parsed([p.value] + q.value, q.rest))
  }
}
