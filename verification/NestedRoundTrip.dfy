/** Reading back nested values, for any leaves: if the leaves are read back exactly
when they survive, so is everything built from them, with one exception, a list of
one item without text. */
module NestedRoundTrip {
  import opened Results
  import opened Cursors
  import opened Schema
  import opened Values
  import opened NestedText

  predicate HasType(c: LeafCodec, t: DataType, v: Value)
    decreases t
  {
    match t
    case Nullable(inner) => v.Null? || HasType(c, inner, v)
    case Array(e) => v.Array? && forall i :: 0 <= i < |v.items| ==> HasType(c, e, v.items[i])
    case Map(inner) => v.Map? && EntriesHaveType(c, inner, v.entries)
    case Tuple(ts) => v.Tuple? && |v.items| == |ts| && forall i :: 0 <= i < |ts| ==> HasType(c, ts[i], v.items[i])
    case _ => c.types(t, v)
  }

  predicate EntriesHaveType(c: LeafCodec, inner: DataType, kvs: seq<(Value, Value)>)
    decreases inner
  {
    IsPair(inner) && forall i :: 0 <= i < |kvs| ==>
      HasType(c, inner.fields[0], kvs[i].0) && HasType(c, inner.fields[1], kvs[i].1)
  }

  /** A list of one item without text prints as an empty list. */
  predicate PrintsAsEmpty(c: LeafCodec, vs: seq<Value>) {
    |vs| == 1 && Encode(c, vs[0], false) == ""
  }

  /** The values whose text, nested in another value, is read back. */
  predicate Faithful(c: LeafCodec, t: DataType, v: Value)
    requires HasType(c, t, v)
    decreases t
  {
    match t
    case Nullable(inner) => v.Null? || Faithful(c, inner, v)
    case Array(e) => !PrintsAsEmpty(c, v.items) && forall i :: 0 <= i < |v.items| ==> Faithful(c, e, v.items[i])
    case Map(inner) => FaithfulEntries(c, inner, v.entries)
    case Tuple(ts) => forall i :: 0 <= i < |ts| ==> Faithful(c, ts[i], v.items[i])
    case _ => c.survives(t, v)
  }

  predicate FaithfulEntries(c: LeafCodec, inner: DataType, kvs: seq<(Value, Value)>)
    requires EntriesHaveType(c, inner, kvs)
    decreases inner
  {
    forall i :: 0 <= i < |kvs| ==>
      Faithful(c, inner.fields[0], kvs[i].0) && Faithful(c, inner.fields[1], kvs[i].1)
  }

  /** What may stand behind a nested value. */
  predicate Follows(rest: string) {
    rest == "" || rest[0] in {',', ']', '}', ')', ':'}
  }

  /** What may stand behind a value without parts: white space too. */
  predicate Ends(rest: string) {
    Follows(rest) || IsWhite(rest[0])
  }

  /** The reader gave `v` and left `rest`; or `v` is not faithful, and the reader did
  not give it. */
  predicate Agrees<T(==)>(faithful: bool, r: Reading<T>, v: T, rest: string) {
    if faithful then r == Ok(Parsed(v, rest)) else !(r.Ok? && r.value.value == v)
  }

  predicate IsLeaf(t: DataType) {
    !t.Nullable? && !t.Array? && !t.Map? && !t.Tuple?
  }

  /** A character that opens a value: no white space, no separator, no bracket that
  closes. */
  predicate Opens(c: char) {
    !IsWhite(c) && c !in {',', ']', '}', ')', ':'}
  }

  /** What the leaves owe: texts that open properly, NULL for nothing but null, and
  reading back exactly what survives. */
  ghost predicate Lawful(c: LeafCodec) {
    && c.write(Value.Null, false) == "NULL"
    && (forall v :: LeafOpens(c, v))
    && (forall t, v, rest :: LeafAgrees(c, t, v, rest))
  }

  predicate LeafOpens(c: LeafCodec, v: Value) {
    var s := c.write(v, false);
    s != "" ==> Opens(s[0]) && (s[0] == 'N' ==> v.Null?)
  }

  predicate LeafAgrees(c: LeafCodec, t: DataType, v: Value, rest: string) {
    IsLeaf(t) && c.types(t, v) && Ends(rest) ==>
      !v.Array? && !v.Map? && !v.Tuple? && Agrees(c.survives(t, v), c.read(t, c.write(v, false) + rest), v, rest)
  }

  // ---------------------------------------------------------------------------
  // How a text begins
  // ---------------------------------------------------------------------------

  lemma {:induction false} EncodeHead(c: LeafCodec, v: Value)
    requires Lawful(c)
    ensures var s := Encode(c, v, false); s != "" ==> Opens(s[0]) && (s[0] == 'N' ==> v.Null?)
  {
    assert LeafOpens(c, v);
  }

  /** There is no white space to skip. */
  predicate Solid(s: string) {
    s == "" || !IsWhite(s[0])
  }

  /** In front of a value there is nothing to skip. */
  lemma {:induction false} HeadOfValue(c: LeafCodec, v: Value, rest: string)
    requires Lawful(c) && Follows(rest)
    ensures Solid(Encode(c, v, false) + rest)
    ensures !v.Null? ==> !StartsWith(Encode(c, v, false) + rest, "NULL")
  {
    EncodeHead(c, v);
    var s := Encode(c, v, false) + rest;
    if StartsWith(s, "NULL") {
      assert s[..4][0] == s[0];
    }
  }

  // ---------------------------------------------------------------------------
  // One round of a reading loop
  // ---------------------------------------------------------------------------

  /** An element, and then the elements that `more` reads behind it. */
  function Round<T>(p: Reading<T>, more: string -> Reading<seq<T>>): Reading<seq<T>> {
    match p
    case Err(e) => Err(e)
    case Ok(x) =>
      match more(x.rest)
      case Err(e) => Err(e)
      case Ok(q) => Ok(Parsed([x.value] + q.value, q.rest))
  }

  lemma {:induction false} RoundAgrees<T>(faithful: bool, p: Reading<T>, tail: string,
                       faithfulMore: bool, more: string -> Reading<seq<T>>, vs: seq<T>, rest: string)
    requires vs != []
    requires Agrees(faithful, p, vs[0], tail) && Agrees(faithfulMore, more(tail), vs[1..], rest)
    ensures Agrees(faithful && faithfulMore, Round(p, more), vs, rest)
  {
    assert [vs[0]] + vs[1..] == vs;
    if p.Ok? && more(p.value.rest).Ok? {
      var all := [p.value.value] + more(p.value.rest).value.value;
      assert all[0] == p.value.value && all[1..] == more(p.value.rest).value.value;
    }
  }

  // ---------------------------------------------------------------------------
  // Nested values
  // ---------------------------------------------------------------------------

  /** The codec theorem: a well-typed value, written inside another value and
  followed by a separator, is read back with the cursor exactly behind it if and
  only if it is faithful; an unfaithful one is never read back as itself. */
  lemma {:induction false} FieldRoundTrip(c: LeafCodec, t: DataType, v: Value, rest: string)
    requires Lawful(c) && HasType(c, t, v) && Follows(rest)
    ensures Agrees(Faithful(c, t, v), ReadField(c, t, Encode(c, v, false) + rest), v, rest)
    decreases t, 3
  {
    hide ReadField, Encode, Faithful, HasType, Lawful;
    match t {
      case Nullable(inner) => NullableRoundTrip(c, inner, v, rest);
      case Array(e) => ArrayRoundTrip(c, e, v, rest);
      case Map(inner) => MapRoundTrip(c, inner, v, rest);
      case Tuple(ts) => TupleRoundTrip(c, ts, v, rest);
      case _ => LeafFieldRoundTrip(c, t, v, rest);
    }
  }

  lemma {:induction false} LeafFieldRoundTrip(c: LeafCodec, t: DataType, v: Value, rest: string)
    requires Lawful(c) && IsLeaf(t) && HasType(c, t, v) && Follows(rest)
    ensures Agrees(Faithful(c, t, v), ReadField(c, t, Encode(c, v, false) + rest), v, rest)
  {
    assert LeafAgrees(c, t, v, rest);
  }

  lemma {:induction false} NullableRoundTrip(c: LeafCodec, inner: DataType, v: Value, rest: string)
    requires Lawful(c) && HasType(c, Nullable(inner), v) && Follows(rest)
    ensures Agrees(Faithful(c, Nullable(inner), v), ReadField(c, Nullable(inner), Encode(c, v, false) + rest), v, rest)
    decreases inner, 6
  {
    if v.Null? {
      var s := "NULL" + rest;
      assert s[..4] == "NULL" && s[4..] == rest;
    } else {
      HeadOfValue(c, v, rest);
      FieldRoundTrip(c, inner, v, rest);
    }
  }

  lemma {:induction false} ArrayRoundTrip(c: LeafCodec, e: DataType, v: Value, rest: string)
    requires Lawful(c) && HasType(c, DataType.Array(e), v)
    ensures Agrees(Faithful(c, DataType.Array(e), v),
                   ReadField(c, DataType.Array(e), Encode(c, v, false) + rest), v, rest)
    decreases e, 6
  {
    hide EncodeItems, ReadItems, ReadTuple, ReadMap;
    var items := EncodeItems(c, v.items, true) + ("]" + rest);
    assert Encode(c, v, false) + rest == "[" + items;
    assert ("[" + items)[1..] == items;
    ItemsRoundTrip(c, e, v.items, true, rest);
    assert v == Value.Array(v.items);
  }

  lemma {:induction false} MapRoundTrip(c: LeafCodec, inner: DataType, v: Value, rest: string)
    requires Lawful(c) && HasType(c, DataType.Map(inner), v)
    ensures Agrees(Faithful(c, DataType.Map(inner), v),
                   ReadField(c, DataType.Map(inner), Encode(c, v, false) + rest), v, rest)
    decreases inner, 6
  {
    var entries := EncodeEntries(c, v.entries, true) + ("}" + rest);
    assert Encode(c, v, false) + rest == "{" + entries;
    assert ("{" + entries)[1..] == entries;
    EntriesRoundTrip(c, inner, v.entries, true, rest);
    assert v == Value.Map(v.entries);
  }

  lemma {:induction false} TupleRoundTrip(c: LeafCodec, ts: seq<DataType>, v: Value, rest: string)
    requires Lawful(c) && HasType(c, DataType.Tuple(ts), v)
    ensures Agrees(Faithful(c, DataType.Tuple(ts), v),
                   ReadField(c, DataType.Tuple(ts), Encode(c, v, false) + rest), v, rest)
    decreases ts, 6
  {
    var items := EncodeItems(c, v.items, true) + (")" + rest);
    assert Encode(c, v, false) + rest == "(" + items;
    assert ("(" + items)[1..] == items;
    FieldsRoundTrip(c, ts, v.items, true, rest);
    assert v == Value.Tuple(v.items);
  }

  // ---------------------------------------------------------------------------
  // Arrays
  // ---------------------------------------------------------------------------

  predicate ItemsHaveType(c: LeafCodec, e: DataType, vs: seq<Value>) {
    forall i :: 0 <= i < |vs| ==> HasType(c, e, vs[i])
  }

  predicate FaithfulItems(c: LeafCodec, e: DataType, vs: seq<Value>, first: bool)
    requires ItemsHaveType(c, e, vs)
  {
    !(first && PrintsAsEmpty(c, vs)) && forall i :: 0 <= i < |vs| ==> Faithful(c, e, vs[i])
  }

  /** The text behind the first item of a list. */
  lemma {:induction false} ItemsSplit(c: LeafCodec, vs: seq<Value>, first: bool, close: string)
    requires vs != [] && Follows(close) && close != ""
    ensures var tail := EncodeItems(c, vs[1..], false) + close;
            && EncodeItems(c, vs, first) + close == (if first then "" else ",") + (Encode(c, vs[0], false) + tail)
            && Follows(tail) && tail != "" && (|vs| == 1 ==> tail == close) && (|vs| > 1 ==> tail[0] == ',')
  {
    if |vs| > 1 {
      assert EncodeItems(c, vs[1..], false)[0] == ',';
    }
  }

  lemma {:induction false} EmptyItems(c: LeafCodec, e: DataType, rest: string, first: bool)
    ensures ReadItems(c, e, "]" + rest, first) == Ok(Parsed([], rest))
  {
    assert ("]" + rest)[1..] == rest;
  }

  lemma {:induction false} FirstItem(c: LeafCodec, e: DataType, item: string)
    requires Solid(item) && item != "" && item[0] != ']'
    ensures ReadItems(c, e, item, true) == Round(ReadField(c, e, item), x => ReadItems(c, e, x, false))
  {
  }

  lemma {:induction false} NextItem(c: LeafCodec, e: DataType, text: string, item: string)
    requires Solid(item) && text == "," + item
    ensures ReadItems(c, e, text, false) == Round(ReadField(c, e, item), x => ReadItems(c, e, x, false))
  {
    assert text[1..] == item;
  }

  lemma {:induction false} FaithfulItemsSplit(c: LeafCodec, e: DataType, vs: seq<Value>, first: bool)
    requires vs != [] && ItemsHaveType(c, e, vs) && !(first && PrintsAsEmpty(c, vs))
    ensures ItemsHaveType(c, e, vs[1..])
    ensures FaithfulItems(c, e, vs, first) == (Faithful(c, e, vs[0]) && FaithfulItems(c, e, vs[1..], false))
  {
    hide HasType, Faithful, Encode;
    assert forall i :: 1 <= i < |vs| ==> vs[i] == vs[1..][i - 1];
  }

  lemma {:induction false} ItemsRoundTrip(c: LeafCodec, e: DataType, vs: seq<Value>, first: bool, rest: string)
    requires Lawful(c) && ItemsHaveType(c, e, vs)
    ensures Agrees(FaithfulItems(c, e, vs, first),
                   ReadItems(c, e, EncodeItems(c, vs, first) + ("]" + rest), first), vs, rest)
    decreases e, 4, |vs|
  {
    hide ReadField, Encode, Faithful, HasType, EncodeItems, ReadItems;
    var close := "]" + rest;
    if vs == [] || (first && PrintsAsEmpty(c, vs)) {
      NoItemsText(c, vs, first, close);
    }
    if vs == [] {
      EmptyItems(c, e, rest, first);
    } else {
      ItemsSplit(c, vs, first, close);
      if first && PrintsAsEmpty(c, vs) {
        EmptyItems(c, e, rest, first);
      } else {
        var tail := EncodeItems(c, vs[1..], false) + close;
        FieldRoundTrip(c, e, vs[0], tail);
        ItemsRoundTrip(c, e, vs[1..], false, rest);
        ItemsStep(c, e, vs, first, tail, close, rest);
      }
    }
  }

  lemma NoItemsText(c: LeafCodec, vs: seq<Value>, first: bool, close: string)
    requires vs == [] || (first && PrintsAsEmpty(c, vs))
    ensures EncodeItems(c, vs, first) + close == close
  {
    hide Encode;
    assert "" + close == close;
    if vs != [] {
      assert vs[1..] == [] && EncodeItems(c, vs, first) == "";
    }
  }

  lemma {:induction false} ItemsStep(c: LeafCodec, e: DataType, vs: seq<Value>, first: bool, tail: string,
                                     close: string, rest: string)
    requires Lawful(c) && ItemsHaveType(c, e, vs) && vs != [] && !(first && PrintsAsEmpty(c, vs))
    requires close == "]" + rest && tail == EncodeItems(c, vs[1..], false) + close
    requires Agrees(Faithful(c, e, vs[0]), ReadField(c, e, Encode(c, vs[0], false) + tail), vs[0], tail)
    requires ItemsHaveType(c, e, vs[1..])
    requires Agrees(FaithfulItems(c, e, vs[1..], false), ReadItems(c, e, tail, false), vs[1..], rest)
    ensures Agrees(FaithfulItems(c, e, vs, first), ReadItems(c, e, EncodeItems(c, vs, first) + close, first), vs, rest)
  {
    var item := Encode(c, vs[0], false) + tail;
    var text := EncodeItems(c, vs, first) + close;
    ItemsSplit(c, vs, first, close);
    EncodeHead(c, vs[0]);
    HeadOfValue(c, vs[0], tail);
    if first {
      assert text == item;
      FirstItem(c, e, item);
    } else {
      NextItem(c, e, text, item);
    }
    FaithfulItemsSplit(c, e, vs, first);
    RoundAgrees(Faithful(c, e, vs[0]), ReadField(c, e, item), tail,
                FaithfulItems(c, e, vs[1..], false), x => ReadItems(c, e, x, false), vs, rest);
  }

  // ---------------------------------------------------------------------------
  // Tuples
  // ---------------------------------------------------------------------------

  predicate FieldsHaveType(c: LeafCodec, ts: seq<DataType>, vs: seq<Value>) {
    |ts| == |vs| && forall i :: 0 <= i < |ts| ==> HasType(c, ts[i], vs[i])
  }

  predicate FaithfulFields(c: LeafCodec, ts: seq<DataType>, vs: seq<Value>)
    requires FieldsHaveType(c, ts, vs)
  {
    forall i :: 0 <= i < |ts| ==> Faithful(c, ts[i], vs[i])
  }

  lemma {:induction false} FirstField(c: LeafCodec, ts: seq<DataType>, item: string)
    requires ts != [] && Solid(item)
    ensures ReadFields(c, ts, item, true) == Round(ReadField(c, ts[0], item), x => ReadFields(c, ts[1..], x, false))
  {
  }

  lemma {:induction false} NextField(c: LeafCodec, ts: seq<DataType>, text: string, item: string)
    requires ts != [] && Solid(item) && text == "," + item
    ensures ReadFields(c, ts, text, false) == Round(ReadField(c, ts[0], item), x => ReadFields(c, ts[1..], x, false))
  {
    assert text[1..] == item;
  }

  lemma {:induction false} FaithfulFieldsSplit(c: LeafCodec, ts: seq<DataType>, vs: seq<Value>)
    requires ts != [] && FieldsHaveType(c, ts, vs)
    ensures FieldsHaveType(c, ts[1..], vs[1..])
    ensures FaithfulFields(c, ts, vs) == (Faithful(c, ts[0], vs[0]) && FaithfulFields(c, ts[1..], vs[1..]))
  {
    assert forall i :: 1 <= i < |vs| ==> vs[i] == vs[1..][i - 1] && ts[i] == ts[1..][i - 1];
  }

  lemma {:induction false} FieldsRoundTrip(c: LeafCodec, ts: seq<DataType>, vs: seq<Value>, first: bool, rest: string)
    requires Lawful(c) && FieldsHaveType(c, ts, vs)
    ensures Agrees(FaithfulFields(c, ts, vs),
                   ReadFields(c, ts, EncodeItems(c, vs, first) + (")" + rest), first), vs, rest)
    decreases ts, 4
  {
    var close := ")" + rest;
    if ts == [] {
      assert EncodeItems(c, vs, first) + close == close;
      assert close[1..] == rest;
    } else {
      var tail := EncodeItems(c, vs[1..], false) + close;
      var item := Encode(c, vs[0], false) + tail;
      ItemsSplit(c, vs, first, close);
      HeadOfValue(c, vs[0], tail);
      var text := EncodeItems(c, vs, first) + close;
      if first {
        assert text == item;
        FirstField(c, ts, item);
      } else {
        NextField(c, ts, text, item);
      }
      FieldRoundTrip(c, ts[0], vs[0], tail);
      FaithfulFieldsSplit(c, ts, vs);
      FieldsRoundTrip(c, ts[1..], vs[1..], false, rest);
      RoundAgrees(Faithful(c, ts[0], vs[0]), ReadField(c, ts[0], item), tail,
                  FaithfulFields(c, ts[1..], vs[1..]), x => ReadFields(c, ts[1..], x, false), vs, rest);
    }
  }

  // ---------------------------------------------------------------------------
  // Maps
  // ---------------------------------------------------------------------------

  /** The text of the first entry of a map, and what follows it. */
  lemma {:induction false} EntriesSplit(c: LeafCodec, kvs: seq<(Value, Value)>, first: bool, close: string)
    requires kvs != [] && Follows(close) && close != ""
    ensures var tail := EncodeEntries(c, kvs[1..], false) + close;
            && Follows(tail)
            && EncodeEntries(c, kvs, first) + close == (if first then "" else ",") + (EncodeEntry(c, kvs[0]) + tail)
  {
    if |kvs| > 1 {
      assert EncodeEntries(c, kvs[1..], false)[0] == ',';
    }
  }

  lemma {:induction false} EmptyEntries(c: LeafCodec, inner: DataType, rest: string, first: bool)
    requires inner.Tuple?
    ensures ReadEntries(c, inner, "}" + rest, first) == Ok(Parsed([], rest))
  {
    assert ("}" + rest)[1..] == rest;
  }

  lemma {:induction false} FirstEntry(c: LeafCodec, inner: DataType, entry: string)
    requires inner.Tuple? && Solid(entry) && entry != "" && entry[0] != '}'
    ensures ReadEntries(c, inner, entry, true) ==
            Round(ReadEntry(c, inner, entry), x => ReadEntries(c, inner, x, false))
  {
  }

  lemma {:induction false} NextEntry(c: LeafCodec, inner: DataType, text: string, entry: string)
    requires inner.Tuple? && Solid(entry) && text == "," + entry
    ensures ReadEntries(c, inner, text, false) ==
            Round(ReadEntry(c, inner, entry), x => ReadEntries(c, inner, x, false))
  {
    assert text[1..] == entry;
  }

  /** A key, the colon, and what `value` reads behind it. */
  function Entry(k: Reading<Value>, value: string -> Reading<Value>): Reading<(Value, Value)> {
    match k
    case Err(e) => Err(e)
    case Ok(x) =>
      match Expect(SkipWhite(x.rest), ':')
      case Err(e) => Err(e)
      case Ok(s) =>
        match value(SkipWhite(s))
        case Err(e) => Err(e)
        case Ok(y) => Ok(Parsed((x.value, y.value), y.rest))
  }

  lemma {:induction false} EntryUnfold(c: LeafCodec, inner: DataType, s: string)
    requires IsPair(inner)
    ensures ReadEntry(c, inner, s) == Entry(ReadField(c, inner.fields[0], s), x => ReadField(c, inner.fields[1], x))
  {
  }

  lemma {:induction false} EntryAgrees(kv: (Value, Value), faithfulKey: bool, k: Reading<Value>, faithfulValue: bool,
                                       value: string -> Reading<Value>, text: string, tail: string)
    requires Solid(text)
    requires Agrees(faithfulKey, k, kv.0, ":" + text)
    requires Agrees(faithfulValue, value(text), kv.1, tail)
    ensures Agrees(faithfulKey && faithfulValue, Entry(k, value), kv, tail)
  {
    assert (":" + text)[1..] == text;
    assert kv == (kv.0, kv.1);
  }

  lemma {:induction false} FaithfulEntriesSplit(c: LeafCodec, inner: DataType, kvs: seq<(Value, Value)>)
    requires kvs != [] && EntriesHaveType(c, inner, kvs)
    ensures EntriesHaveType(c, inner, kvs[1..])
    ensures FaithfulEntries(c, inner, kvs) ==
            (Faithful(c, inner.fields[0], kvs[0].0) && Faithful(c, inner.fields[1], kvs[0].1)
             && FaithfulEntries(c, inner, kvs[1..]))
  {
    assert forall i :: 1 <= i < |kvs| ==> kvs[i] == kvs[1..][i - 1];
  }

  lemma {:induction false} EntryRoundTrip(c: LeafCodec, inner: DataType, kv: (Value, Value), tail: string)
    requires Lawful(c) && EntriesHaveType(c, inner, [kv]) && Follows(tail)
    ensures HasType(c, inner.fields[0], kv.0) && HasType(c, inner.fields[1], kv.1)
    ensures var entry := EncodeEntry(c, kv) + tail;
            && Solid(entry) && entry != "" && entry[0] != '}'
            && Agrees(Faithful(c, inner.fields[0], kv.0) && Faithful(c, inner.fields[1], kv.1),
                      ReadEntry(c, inner, entry), kv, tail)
    decreases inner, 3
  {
    assert [kv][0] == kv;
    var value := Encode(c, kv.1, false) + tail;
    var entry := Encode(c, kv.0, false) + (":" + value);
    assert EncodeEntry(c, kv) + tail == entry;
    EncodeHead(c, kv.0);
    HeadOfValue(c, kv.0, ":" + value);
    HeadOfValue(c, kv.1, tail);
    FieldRoundTrip(c, inner.fields[0], kv.0, ":" + value);
    FieldRoundTrip(c, inner.fields[1], kv.1, tail);
    EntryUnfold(c, inner, entry);
    EntryAgrees(kv, Faithful(c, inner.fields[0], kv.0), ReadField(c, inner.fields[0], entry),
                Faithful(c, inner.fields[1], kv.1), x => ReadField(c, inner.fields[1], x), value, tail);
  }

  lemma {:induction false} EntriesRoundTrip(c: LeafCodec, inner: DataType, kvs: seq<(Value, Value)>, first: bool,
                                            rest: string)
    requires Lawful(c) && EntriesHaveType(c, inner, kvs)
    ensures Agrees(FaithfulEntries(c, inner, kvs),
                   ReadEntries(c, inner, EncodeEntries(c, kvs, first) + ("}" + rest), first), kvs, rest)
    decreases inner, 4, |kvs|
  {
    var close := "}" + rest;
    if kvs == [] {
      assert EncodeEntries(c, kvs, first) + close == close;
      EmptyEntries(c, inner, rest, first);
    } else {
      var tail := EncodeEntries(c, kvs[1..], false) + close;
      var entry := EncodeEntry(c, kvs[0]) + tail;
      EntriesSplit(c, kvs, first, close);
      EntryRoundTrip(c, inner, kvs[0], tail);
      var text := EncodeEntries(c, kvs, first) + close;
      if first {
        assert text == entry;
        FirstEntry(c, inner, entry);
      } else {
        NextEntry(c, inner, text, entry);
      }
      FaithfulEntriesSplit(c, inner, kvs);
      EntriesRoundTrip(c, inner, kvs[1..], false, rest);
      RoundAgrees(Faithful(c, inner.fields[0], kvs[0].0) && Faithful(c, inner.fields[1], kvs[0].1),
                  ReadEntry(c, inner, entry), tail,
                  FaithfulEntries(c, inner, kvs[1..]), x => ReadEntries(c, inner, x, false), kvs, rest);
    }
  }
}
