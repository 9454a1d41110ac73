/** The writer and the reader as the source runs them: one pushes onto a byte vector,
the other moves a cursor (`sql/src/value/format/result_encode.rs`,
`sql/src/value/string_decoder.rs`). Both are proved equal to the functions whose
round trip is proved in `ValueRoundTrip`. */
module ValueCodec {
  import opened Results
  import opened Cursors
  import opened Decimals
  import opened Schema
  import opened Values
  import opened ValueText
  import N = NestedText
  import Hex

  lemma {:induction false} EscapedAppend(s: string, x: char, quote: char)
    ensures Escaped(s + [x], quote) == Escaped(s, quote) + (if x == quote then ['\\', quote] else [x])
  {
    if s != "" {
      EscapedAppend(s[1..], x, quote);
      assert (s + [x])[1..] == s[1..] + [x];
    } else {
      assert (s + [x])[1..] == "";
    }
  }

  lemma EscapedNone(quote: char)
    ensures Escaped("", quote) == ""
  {
  }

  /** One turn of the loop over a quoted string. */
  lemma {:induction false} EscapedNext(first: string, bytes: string, s: string, start: nat, i: nat, quote: char)
    requires start <= i < |s| && bytes + s[start..i] == first + Escaped(s[..i], quote)
    ensures s[i] != quote ==> bytes + s[start..i + 1] == first + Escaped(s[..i + 1], quote)
    ensures s[i] == quote ==>
              && bytes + s[start..i] + ['\\'] + [quote] + s[i + 1..i + 1] == first + Escaped(s[..i + 1], quote)
              && (start == i ==> bytes + s[start..i] == bytes)
  {
    hide Escaped;
    EscapedAppend(s[..i], s[i], quote);
    assert s[..i + 1] == s[..i] + [s[i]];
    assert bytes + s[start..i + 1] == bytes + s[start..i] + [s[i]];
    assert bytes + s[start..i] + ['\\'] + [quote] == bytes + s[start..i] + ['\\', quote];
  }

  /** A piece between what is written and what is still to come. */
  lemma Between(before: string, piece: string, more: string)
    ensures before + (piece + more) == before + piece + more
  {
  }

  lemma NoneLeft(c: N.LeafCodec, vs: seq<Value>, kvs: seq<(Value, Value)>, first: bool)
    ensures vs == [] ==> N.EncodeItems(c, vs, first) == ""
    ensures kvs == [] ==> N.EncodeEntries(c, kvs, first) == ""
  {
  }

  lemma {:induction false} ItemsFrom(c: N.LeafCodec, vs: seq<Value>, i: nat)
    requires i < |vs|
    ensures N.EncodeItems(c, vs[i..], i == 0) ==
            (if i == 0 then "" else ",") + N.Encode(c, vs[i], false) + N.EncodeItems(c, vs[i + 1..], false)
  {
    assert vs[i..][1..] == vs[i + 1..];
  }

  lemma {:induction false} EntriesFrom(c: N.LeafCodec, kvs: seq<(Value, Value)>, i: nat)
    requires i < |kvs|
    ensures N.EncodeEntries(c, kvs[i..], i == 0) ==
            (if i == 0 then "" else ",") + N.EncodeEntry(c, kvs[i]) + N.EncodeEntries(c, kvs[i + 1..], false)
  {
    assert kvs[i..][1..] == kvs[i + 1..];
  }

  class ByteBuffer {
    var bytes: string

    constructor ()
      ensures bytes == ""
    {
      bytes := "";
    }

    method Push(b: char)
      modifies this
      ensures bytes == old(bytes) + [b]
    {
      bytes := bytes + [b];
    }

    method Extend(s: string)
      modifies this
      ensures bytes == old(bytes) + s
    {
      bytes := bytes + s;
    }

    /** `write_quoted_string_min_escape`: copies the runs between quotes. */
    method WriteQuotedStringMinEscape(s: string, quote: char)
      modifies this
      ensures bytes == old(bytes) + Escaped(s, quote)
    {
      hide Escaped;
      EscapedNone(quote);
      assert bytes + s[0..0] == bytes == bytes + "";
      var start := 0;
      for i := 0 to |s|
        invariant start <= i
        invariant bytes + s[start..i] == old(bytes) + Escaped(s[..i], quote)
      {
        EscapedNext(old(bytes), bytes, s, start, i, quote);
        if s[i] == quote {
          if start < i {
            Extend(s[start..i]);
          }
          Push('\\');
          Push(quote);
          start := i + 1;
        }
      }
      assert s[..|s|] == s;
      if start != |s| {
        Extend(s[start..]);
      }
    }

    method WriteString(s: string, raw: bool)
      modifies this
      ensures bytes == old(bytes) + StringText(s, raw)
    {
      if !raw {
        Push('"');
        WriteQuotedStringMinEscape(s, '"');
        Push('"');
      } else {
        Extend(s);
      }
    }

    method WriteLeaf(v: Value, raw: bool)
      modifies this
      ensures bytes == old(bytes) + LeafText(v, raw)
    {
      match v {
        case Null => Extend("NULL");
        case EmptyArray => Extend("[]");
        case EmptyMap => Extend("{}");
        case Boolean(b) => Extend(if b then "1" else "0");
        case Number(n) => Extend(NumberText(n));
        case Binary(bs) => Extend(Hex.EncodeUpper(bs));
        case String(s) => WriteString(s, raw);
        case Bitmap(s) => WriteString(s, raw);
        case Interval(s) => WriteString(s, raw);
        case _ => Extend("");
      }
    }

    method WriteWithOption(v: Value, raw: bool)
      modifies this
      ensures bytes == old(bytes) + N.Encode(HTTP, v, raw)
      decreases v, 2
    {
      hide LeafText, N.EncodeItems, N.EncodeEntries;
      match v {
        case Array(vs) =>
          Push('[');
          WriteItems(vs);
          Push(']');
        case Map(kvs) =>
          Push('{');
          WriteEntries(kvs);
          Push('}');
        case Tuple(vs) =>
          Push('(');
          WriteItems(vs);
          Push(')');
        case _ => WriteLeaf(v, raw);
      }
    }

    method WriteItems(vs: seq<Value>)
      modifies this
      ensures bytes == old(bytes) + N.EncodeItems(HTTP, vs, true)
      decreases vs, 1
    {
      hide LeafText, N.Encode, N.EncodeItems;
      ghost var all := bytes + N.EncodeItems(HTTP, vs, true);
      assert vs[0..] == vs;
      for i := 0 to |vs|
        invariant bytes + N.EncodeItems(HTTP, vs[i..], i == 0) == all
      {
        ItemsFrom(HTTP, vs, i);
        ghost var before := bytes;
        ghost var piece := (if i == 0 then "" else ",") + N.Encode(HTTP, vs[i], false);
        Between(before, piece, N.EncodeItems(HTTP, vs[i + 1..], false));
        if i > 0 {
          Push(',');
        }
        WriteWithOption(vs[i], false);
        assert bytes == before + piece;
      }
      NoneLeft(HTTP, vs[|vs|..], [], |vs| == 0);
    }

    method WriteEntries(kvs: seq<(Value, Value)>)
      modifies this
      ensures bytes == old(bytes) + N.EncodeEntries(HTTP, kvs, true)
      decreases kvs, 1
    {
      hide LeafText, N.EncodeEntry, N.EncodeEntries;
      ghost var all := bytes + N.EncodeEntries(HTTP, kvs, true);
      assert kvs[0..] == kvs;
      for i := 0 to |kvs|
        invariant bytes + N.EncodeEntries(HTTP, kvs[i..], i == 0) == all
      {
        EntriesFrom(HTTP, kvs, i);
        ghost var before := bytes;
        ghost var piece := (if i == 0 then "" else ",") + N.EncodeEntry(HTTP, kvs[i]);
        Between(before, piece, N.EncodeEntries(HTTP, kvs[i + 1..], false));
        if i > 0 {
          Push(',');
        }
        WriteEntry(kvs[i]);
        assert bytes == before + piece;
      }
      NoneLeft(HTTP, [], kvs[|kvs|..], |kvs| == 0);
    }

    method WriteEntry(kv: (Value, Value))
      modifies this
      ensures bytes == old(bytes) + N.EncodeEntry(HTTP, kv)
      decreases kv, 3
    {
      WriteWithOption(kv.0, false);
      Push(':');
      WriteWithOption(kv.1, false);
    }
  }

  /** `Value::to_string_with_options`. */
  method ToStringWithOptions(v: Value) returns (s: string)
    ensures s == N.Encode(HTTP, v, true)
  {
    var buf := new ByteBuffer();
    buf.WriteWithOption(v, true);
    s := buf.bytes;
    assert "" + s == s;
  }

  // ---------------------------------------------------------------------------
  // Reading
  // ---------------------------------------------------------------------------

  /** The items read so far, in front of those that `r` reads. */
  function Behind<T>(done: seq<T>, r: N.Reading<seq<T>>): N.Reading<seq<T>> {
    match r
    case Ok(p) => Ok(Parsed(done + p.value, p.rest))
    case Err(e) => Err(e)
  }

  /** How a round of a reading loop begins: at the closing bracket, or behind the comma that
  is due in all rounds but the first. */
  function Opening(s: string, close: char, first: bool): (r: Result<(bool, string)>)
    ensures r.Ok? ==> |r.value.1| <= |s| && (!first ==> |r.value.1| < |s|)
  {
    var s1 := SkipWhite(s);
    if s1 != "" && s1[0] == close then Ok((true, s1[1..]))
    else
      var s2 :- if first then Ok(s1) else Expect(s1, ',');
      Ok((false, SkipWhite(s2)))
  }

  class ValueDecoder {
    const reader: Cursor

    constructor (text: string)
      ensures reader.Valid() && reader.Rest() == text && fresh(reader)
    {
      reader := new Cursor(text);
    }

    /** Consumes `bs`, or rolls back to the checkpoint. */
    method MatchBytes(bs: string) returns (found: bool)
      requires reader.Valid()
      modifies reader
      ensures reader.Valid() && found == StartsWith(old(reader.Rest()), bs)
      ensures reader.Rest() == if found then old(reader.Rest())[|bs|..] else old(reader.Rest())
    {
      var checkpoint := reader.pos;
      found := reader.IgnoreBytes(bs);
      if !found {
        reader.pos := checkpoint;
      }
    }

    method ReadNull() returns (r: Result<Value>)
      requires reader.Valid()
      modifies reader
      ensures reader.Valid()
      ensures Located(r, reader.Rest()) == ReadLiteral(old(reader.Rest()), "NULL", Value.Null)
      ensures r.Err? ==> reader.Rest() == old(reader.Rest())
    {
      var found := MatchBytes("NULL");
      r := if found then Ok(Value.Null) else Err(Rejected);
    }

    method ReadBool() returns (r: Result<Value>)
      requires reader.Valid()
      modifies reader
      ensures reader.Valid() && Located(r, reader.Rest()) == ReadBoolean(old(reader.Rest()))
    {
      var found := MatchBytes("1");
      if found {
        return Ok(Value.Boolean(true));
      }
      found := MatchBytes("0");
      r := if found then Ok(Value.Boolean(false)) else Err(Rejected);
    }

    method ReadInt(kind: NumberDataType) returns (r: Result<Value>)
      requires reader.Valid() && IsInteger(kind)
      modifies reader
      ensures reader.Valid()
      ensures match ReadInteger(old(reader.Rest()), IntMin(kind), IntMax(kind))
              case Ok(p) => r == Ok(Value.Number(Integer(kind, p.value))) && reader.Rest() == p.rest
              case Err(e) => r == Err(e)
    {
      var v := reader.ReadIntText(IntMin(kind), IntMax(kind));
      r := match v case Ok(n) => Ok(Value.Number(Integer(kind, n))) case Err(e) => Err(e);
    }

    method ReadDecimalField(size: DecimalSize) returns (r: Result<Value>)
      requires reader.Valid()
      modifies reader
      ensures reader.Valid() && Located(r, reader.Rest()) == ReadDecimal(old(reader.Rest()), size)
    {
      var buf := reader.Rest();
      var nIn, _ := CollectNumber(buf);
      var d := ParseDecimalText(buf[..nIn], size);
      if d.Err? {
        return Err(d.error);
      }
      reader.Consume(nIn);
      r := Ok(Value.Number(d.value));
    }

    /** Tries double quotes, then single quotes. What a failed first attempt leaves in the
    buffer does not matter: either it is nothing, or the cursor is at the end. */
    method ReadStringField() returns (r: Result<string>)
      requires reader.Valid()
      modifies reader
      ensures reader.Valid() && Located(r, reader.Rest()) == ReadString(old(reader.Rest()))
    {
      PrependNothing(QuotedText(reader.Rest(), '"'));
      PrependNothing(QuotedText(reader.Rest(), '\''));
      r := reader.ReadQuotedText("", '"');
      if r.Err? {
        r := reader.ReadQuotedText("", '\'');
      }
    }

    method ReadBinaryField() returns (r: Result<Value>)
      requires reader.Valid()
      modifies reader
      ensures reader.Valid() && Located(r, reader.Rest()) == ReadBinary(old(reader.Rest()))
    {
      var buf := reader.Rest();
      var n := CollectBinaryNumber(buf);
      var bs := Hex.Decode(buf[..n]);
      if bs.Err? {
        return Err(bs.error);
      }
      reader.Consume(n);
      r := Ok(Value.Binary(bs.value));
    }

    method ReadEmpty(open: char, close: char) returns (r: Result<Value>)
      requires reader.Valid()
      modifies reader
      ensures reader.Valid()
      ensures Located(r, reader.Rest()) == ReadPair(old(reader.Rest()), open, close, Value.EmptyArray)
    {
      var entered := reader.MustIgnoreByte(open);
      if entered.Err? {
        return Err(Rejected);
      }
      var closed := reader.MustIgnoreByte(close);
      r := if closed.Ok? then Ok(Value.EmptyArray) else Err(Rejected);
    }

    method ReadLeafField(ty: DataType) returns (r: Result<Value>)
      requires reader.Valid()
      modifies reader
      ensures reader.Valid() && Located(r, reader.Rest()) == ReadLeaf(ty, old(reader.Rest()))
    {
      match ty {
        case Null => r := ReadNull();
        case EmptyArray => r := ReadEmpty('[', ']');
        case EmptyMap => r := ReadEmpty('{', '}');
        case Boolean => r := ReadBool();
        case Number(k) =>
          if IsInteger(k) {
            r := ReadInt(k);
          } else {
            r := Err(Rejected);
          }
        case Decimal(d) => r := ReadDecimalField(d.size);
        case Binary => r := ReadBinaryField();
        case String =>
          var s := ReadStringField();
          r := match s case Ok(x) => Ok(Value.String(x)) case Err(e) => Err(e);
        case Bitmap =>
          var s := ReadStringField();
          r := match s case Ok(x) => Ok(Value.Bitmap(x)) case Err(e) => Err(e);
        case Interval =>
          var s := ReadStringField();
          r := match s case Ok(x) => Ok(Value.Interval(x)) case Err(e) => Err(e);
        case _ => r := Err(Rejected);
      }
    }

    method ReadField(ty: DataType) returns (r: Result<Value>)
      requires reader.Valid()
      modifies reader
      ensures reader.Valid() && Located(r, reader.Rest()) == N.ReadField(HTTP, ty, old(reader.Rest()))
      decreases ty, 2
    {
      hide ReadLeaf;
      match ty {
        case Array(e) => r := ReadArray(e);
        case Map(inner) => r := ReadMap(inner);
        case Tuple(ts) => r := ReadTuple(ts);
        case Nullable(inner) =>
          r := ReadNull();
          if r.Err? {
            r := ReadField(inner);
          }
        case _ => r := ReadLeafField(ty);
      }
    }

    method ReadArray(e: DataType) returns (r: Result<Value>)
      requires reader.Valid()
      modifies reader
      ensures reader.Valid() && Located(r, reader.Rest()) == N.ReadArray(HTTP, e, old(reader.Rest()))
      decreases e, 4
    {
      hide ReadLeaf, N.ReadItems, N.ReadField;
      var entered := reader.MustIgnoreByte('[');
      if entered.Err? {
        return Err(Rejected);
      }
      ghost var all := N.ReadItems(HTTP, e, reader.Rest(), true);
      var vals: seq<Value> := [];
      var first := true;
      BehindNothing(all);
      while true
        invariant reader.Valid()
        invariant Behind(vals, N.ReadItems(HTTP, e, reader.Rest(), first)) == all
        decreases |reader.Rest()|, first
      {
        var val := ReadItem(e, first);
        match val
        case Err(error) => return Err(error);
        case Ok(None) =>
          assert vals + [] == vals;
          return Ok(Value.Array(vals));
        case Ok(Some(v)) =>
          BehindOne(vals, v, N.ReadItems(HTTP, e, reader.Rest(), false));
          vals := vals + [v];
          first := false;
      }
    }

    /** White space, the closing bracket or else the comma, and white space. */
    method ReadOpening(close: char, first: bool) returns (r: Result<bool>)
      requires reader.Valid()
      modifies reader
      ensures reader.Valid()
      ensures match Opening(old(reader.Rest()), close, first)
              case Ok(p) => r == Ok(p.0) && reader.Rest() == p.1
              case Err(e) => r == Err(e)
    {
      hide SkipWhite;
      var _ := reader.IgnoreWhiteSpaces();
      var closed := reader.IgnoreByte(close);
      if closed {
        return Ok(true);
      }
      if !first {
        var comma := reader.MustIgnoreByte(',');
        if comma.Err? {
          return Err(Rejected);
        }
      }
      var _ := reader.IgnoreWhiteSpaces();
      r := Ok(false);
    }

    /** One round of the loop of `read_array`: nothing at the closing bracket. */
    method ReadItem(e: DataType, first: bool) returns (r: Result<Option<Value>>)
      requires reader.Valid()
      modifies reader
      ensures reader.Valid()
      ensures r.Err? ==> N.ReadItems(HTTP, e, old(reader.Rest()), first) == Err(r.error)
      ensures r == Ok(None) ==> N.ReadItems(HTTP, e, old(reader.Rest()), first) == Ok(Parsed([], reader.Rest()))
      ensures r.Ok? && r.value.Some? ==>
                N.ReadItems(HTTP, e, old(reader.Rest()), first)
                == Behind([r.value.value], N.ReadItems(HTTP, e, reader.Rest(), false))
      ensures r.Ok? ==> |reader.Rest()| <= |old(reader.Rest())|
      ensures r.Ok? && !first ==> |reader.Rest()| < |old(reader.Rest())|
      decreases e, 3
    {
      hide ReadLeaf, N.ReadField, N.ReadItems, Opening, Behind;
      ItemsUnfold(HTTP, e, reader.Rest(), first);
      var closed := ReadOpening(']', first);
      match closed
      case Err(error) => return Err(error);
      case Ok(true) => return Ok(None);
      case Ok(false) =>
        var val := ReadField(e);
        r := match val case Ok(v) => Ok(Some(v)) case Err(error) => Err(error);
    }

    method ReadMap(inner: DataType) returns (r: Result<Value>)
      requires reader.Valid()
      modifies reader
      ensures reader.Valid() && Located(r, reader.Rest()) == N.ReadMap(HTTP, inner, old(reader.Rest()))
      decreases inner, 4
    {
      hide ReadLeaf, N.ReadEntries, N.ReadField;
      var entered := reader.MustIgnoreByte('{');
      if entered.Err? {
        return Err(Rejected);
      }
      if !inner.Tuple? {
        return Err(Panicked);
      }
      ghost var all := N.ReadEntries(HTTP, inner, reader.Rest(), true);
      var vals: seq<(Value, Value)> := [];
      var first := true;
      BehindNothing(all);
      while true
        invariant reader.Valid()
        invariant Behind(vals, N.ReadEntries(HTTP, inner, reader.Rest(), first)) == all
        decreases |reader.Rest()|, first
      {
        var val := ReadEntry(inner, first);
        match val
        case Err(error) => return Err(error);
        case Ok(None) =>
          assert vals + [] == vals;
          return Ok(Value.Map(vals));
        case Ok(Some(v)) =>
          BehindOne(vals, v, N.ReadEntries(HTTP, inner, reader.Rest(), false));
          vals := vals + [v];
          first := false;
      }
    }

    /** One round of the loop of `read_map`: nothing at the closing bracket. */
    method ReadEntry(inner: DataType, first: bool) returns (r: Result<Option<(Value, Value)>>)
      requires reader.Valid() && inner.Tuple?
      modifies reader
      ensures reader.Valid()
      ensures r.Err? ==> N.ReadEntries(HTTP, inner, old(reader.Rest()), first) == Err(r.error)
      ensures r == Ok(None) ==> N.ReadEntries(HTTP, inner, old(reader.Rest()), first) == Ok(Parsed([], reader.Rest()))
      ensures r.Ok? && r.value.Some? ==>
                N.ReadEntries(HTTP, inner, old(reader.Rest()), first)
                == Behind([r.value.value], N.ReadEntries(HTTP, inner, reader.Rest(), false))
      ensures r.Ok? ==> |reader.Rest()| <= |old(reader.Rest())|
      ensures r.Ok? && !first ==> |reader.Rest()| < |old(reader.Rest())|
      decreases inner, 3
    {
      hide ReadLeaf, N.ReadEntry, N.ReadEntries, Opening, Behind;
      EntriesUnfold(HTTP, inner, reader.Rest(), first);
      var closed := ReadOpening('}', first);
      match closed
      case Err(error) => return Err(error);
      case Ok(true) => return Ok(None);
      case Ok(false) =>
        var entry := ReadKeyValue(inner);
        r := match entry case Ok(kv) => Ok(Some(kv)) case Err(error) => Err(error);
    }

    method ReadKeyValue(inner: DataType) returns (r: Result<(Value, Value)>)
      requires reader.Valid() && inner.Tuple?
      modifies reader
      ensures reader.Valid() && Located(r, reader.Rest()) == N.ReadEntry(HTTP, inner, old(reader.Rest()))
      decreases inner, 2
    {
      hide ReadLeaf;
      if |inner.fields| == 0 {
        return Err(Panicked);
      }
      var key := ReadField(inner.fields[0]);
      if key.Err? {
        return Err(key.error);
      }
      var _ := reader.IgnoreWhiteSpaces();
      var colon := reader.MustIgnoreByte(':');
      if colon.Err? {
        return Err(Rejected);
      }
      if |inner.fields| == 1 {
        return Err(Panicked);
      }
      var _ := reader.IgnoreWhiteSpaces();
      var val := ReadField(inner.fields[1]);
      r := match val case Ok(v) => Ok((key.value, v)) case Err(error) => Err(error);
    }

    method ReadTuple(ts: seq<DataType>) returns (r: Result<Value>)
      requires reader.Valid()
      modifies reader
      ensures reader.Valid() && Located(r, reader.Rest()) == N.ReadTuple(HTTP, ts, old(reader.Rest()))
      decreases ts, 4
    {
      hide ReadLeaf, N.ReadField;
      var entered := reader.MustIgnoreByte('(');
      if entered.Err? {
        return Err(Rejected);
      }
      ghost var all := N.ReadFields(HTTP, ts, reader.Rest(), true);
      var vals: seq<Value> := [];
      BehindNothing(all);
      for idx := 0 to |ts|
        invariant reader.Valid()
        invariant Behind(vals, N.ReadFields(HTTP, ts[idx..], reader.Rest(), idx == 0)) == all
      {
        assert ts[idx..][1..] == ts[idx + 1..];
        var val := ReadTupleField(ts[idx], idx == 0, ts[idx..]);
        if val.Err? {
          return Err(val.error);
        }
        BehindOne(vals, val.value, N.ReadFields(HTTP, ts[idx + 1..], reader.Rest(), false));
        vals := vals + [val.value];
      }
      var closed := reader.MustIgnoreByte(')');
      assert vals + [] == vals;
      r := if closed.Ok? then Ok(Value.Tuple(vals)) else Err(Rejected);
    }

    /** One round of the loop of `read_tuple`, for the first of the types `ts` left. */
    method ReadTupleField(ty: DataType, first: bool, ghost ts: seq<DataType>) returns (r: Result<Value>)
      requires reader.Valid() && ts != [] && ts[0] == ty
      modifies reader
      ensures reader.Valid()
      ensures r.Ok? ==>
                N.ReadFields(HTTP, ts, old(reader.Rest()), first) ==
                Behind([r.value], N.ReadFields(HTTP, ts[1..], reader.Rest(), false))
      ensures r.Err? ==> N.ReadFields(HTTP, ts, old(reader.Rest()), first) == Err(r.error)
      decreases ty, 3
    {
      hide ReadLeaf, N.ReadField, N.ReadFields, SkipWhite;
      FieldsUnfold(HTTP, ts, reader.Rest(), first);
      var _ := reader.IgnoreWhiteSpaces();
      if !first {
        var comma := reader.MustIgnoreByte(',');
        if comma.Err? {
          return Err(Rejected);
        }
      }
      var _ := reader.IgnoreWhiteSpaces();
      r := ReadField(ty);
    }
  }

  /** One round of `read_array`, with the later rounds left alone. */
  lemma {:induction false} ItemsUnfold(c: N.LeafCodec, e: DataType, s: string, first: bool)
    ensures N.ReadItems(c, e, s, first) ==
            match Opening(s, ']', first)
            case Err(error) => Err(error)
            case Ok((true, rest)) => Ok(Parsed([], rest))
            case Ok((false, item)) =>
              match N.ReadField(c, e, item)
              case Err(error) => Err(error)
              case Ok(p) => Behind([p.value], N.ReadItems(c, e, p.rest, false))
  {
  }

  /** One round of `read_map`, with the later rounds left alone. */
  lemma {:induction false} EntriesUnfold(c: N.LeafCodec, inner: DataType, s: string, first: bool)
    requires inner.Tuple?
    ensures N.ReadEntries(c, inner, s, first) ==
            match Opening(s, '}', first)
            case Err(error) => Err(error)
            case Ok((true, rest)) => Ok(Parsed([], rest))
            case Ok((false, entry)) =>
              match N.ReadEntry(c, inner, entry)
              case Err(error) => Err(error)
              case Ok(p) => Behind([p.value], N.ReadEntries(c, inner, p.rest, false))
  {
    hide N.ReadEntry;
  }

  /** One round of `read_tuple`, with the later rounds left alone. */
  lemma {:induction false} FieldsUnfold(c: N.LeafCodec, ts: seq<DataType>, s: string, first: bool)
    requires ts != []
    ensures var s1 := SkipWhite(s);
            N.ReadFields(c, ts, s, first) ==
            match if first then Ok(s1) else Expect(s1, ',')
            case Err(error) => Err(error)
            case Ok(s2) =>
              match N.ReadField(c, ts[0], SkipWhite(s2))
              case Err(error) => Err(error)
              case Ok(p) => Behind([p.value], N.ReadFields(c, ts[1..], p.rest, false))
  {
    hide N.ReadField;
  }

  lemma BehindNothing<T>(r: N.Reading<seq<T>>)
    ensures Behind([], r) == r
  {
    if r.Ok? {
      assert [] + r.value.value == r.value.value;
    }
  }

  lemma BehindOne<T>(done: seq<T>, x: T, r: N.Reading<seq<T>>)
    ensures Behind(done, Behind([x], r)) == Behind(done + [x], r)
  {
    if r.Ok? {
      assert done + ([x] + r.value.value) == done + [x] + r.value.value;
    }
  }
}
