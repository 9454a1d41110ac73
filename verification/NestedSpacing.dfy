/** White space in the text of nested values: wherever the reader skips it, it makes no
difference. */
module NestedSpacing {
  import opened Results
  import opened Cursors
  import opened Schema
  import opened Values
  import opened NestedText
  import opened NestedRoundTrip
  import opened ValueText
  import ValueRoundTrip

  /** The white space before and behind each value, and in an empty list. */
  datatype Spacing = Spacing(before: Value -> string, after: Value -> string, empty: string)

  predicate White(s: string) {
    forall i :: 0 <= i < |s| ==> IsWhite(s[i])
  }

  ghost predicate AllWhite(g: Spacing) {
    White(g.empty) && forall v :: White(g.before(v)) && White(g.after(v))
  }

  /** The text of a value with white space in it: anywhere around the items of an array and
  the keys and values of a map, and before the fields of a tuple and behind all of them but
  the last. */
  function Spaced(c: LeafCodec, g: Spacing, v: Value): string
    decreases v, 3
  {
    match v
    case Array(vs) => "[" + (if vs == [] then g.empty else SpacedItems(c, g, vs, true)) + "]"
    case Map(kvs) => "{" + (if kvs == [] then g.empty else SpacedEntries(c, g, kvs, true)) + "}"
    case Tuple(vs) => "(" + SpacedFields(c, g, vs, true) + ")"
    case _ => c.write(v, false)
  }

  function Around(c: LeafCodec, g: Spacing, v: Value): string
    decreases v, 4
  {
    g.before(v) + Spaced(c, g, v) + g.after(v)
  }

  function SpacedItems(c: LeafCodec, g: Spacing, vs: seq<Value>, first: bool): string
    decreases vs, 1
  {
    if vs == [] then ""
    else (if first then "" else ",") + (Around(c, g, vs[0]) + SpacedItems(c, g, vs[1..], false))
  }

  function SpacedEntries(c: LeafCodec, g: Spacing, kvs: seq<(Value, Value)>, first: bool): string
    decreases kvs, 1
  {
    if kvs == [] then ""
    else (if first then "" else ",") + (SpacedEntry(c, g, kvs[0]) + SpacedEntries(c, g, kvs[1..], false))
  }

  function SpacedEntry(c: LeafCodec, g: Spacing, kv: (Value, Value)): string
    decreases kv, 5
  {
    Around(c, g, kv.0) + (":" + Around(c, g, kv.1))
  }

  function SpacedFields(c: LeafCodec, g: Spacing, vs: seq<Value>, first: bool): string
    decreases vs, 1
  {
    if vs == [] then ""
    else
      (if first then "" else ",")
      + ((g.before(vs[0]) + Spaced(c, g, vs[0]) + if |vs| == 1 then "" else g.after(vs[0]))
         + SpacedFields(c, g, vs[1..], false))
  }

  // ---------------------------------------------------------------------------
  // Skipping
  // ---------------------------------------------------------------------------

  lemma {:induction false} SkipGap(gap: string, s: string)
    requires White(gap)
    ensures SkipWhite(gap + s) == SkipWhite(s)
  {
    if gap == "" {
      assert gap + s == s;
    } else {
      assert (gap + s)[1..] == gap[1..] + s;
      SkipGap(gap[1..], s);
    }
  }

  lemma SkipNone(s: string)
    requires Solid(s)
    ensures SkipWhite(s) == s
  {
  }

  /** A spaced text opens as the text without spaces does. */
  lemma {:induction false} SpacedHead(c: LeafCodec, g: Spacing, v: Value)
    requires Lawful(c)
    ensures var s := Spaced(c, g, v); s != "" ==> Opens(s[0]) && (s[0] == 'N' ==> v.Null?)
    ensures Spaced(c, g, v) == "" <==> Encode(c, v, false) == ""
  {
    assert LeafOpens(c, v);
  }

  /** Behind a value comes white space, and then a separator or nothing. */
  predicate GapThen(tail: string, gap: string, next: string) {
    tail == gap + next && White(gap) && Follows(next)
  }

  lemma GapEnds(tail: string, gap: string, next: string)
    requires GapThen(tail, gap, next)
    ensures Ends(tail) && SkipWhite(tail) == next
  {
    if gap == "" {
      assert tail == next;
    }
    SkipGap(gap, next);
  }

  /** The text in front of which the reader stands when it has skipped the white space before
  a value, and the white space that then still follows. */
  lemma {:induction false} BeforeValue(c: LeafCodec, g: Spacing, v: Value, tail: string, gap: string, next: string)
    returns (gap': string)
    requires Lawful(c) && AllWhite(g) && GapThen(tail, gap, next)
    ensures White(gap')
    ensures SkipWhite(g.before(v) + (Spaced(c, g, v) + tail)) == Spaced(c, g, v) + (gap' + next)
    ensures Solid(Spaced(c, g, v) + (gap' + next))
    ensures Spaced(c, g, v) == "" ==> gap' == ""
    ensures gap' == gap || gap' == ""
    ensures GapThen(gap' + next, gap', next)
  {
    var s := Spaced(c, g, v);
    SpacedHead(c, g, v);
    SkipGap(g.before(v), s + tail);
    if s == "" {
      gap' := "";
      assert s + tail == tail && s + ("" + next) == next;
      GapEnds(tail, gap, next);
    } else {
      gap' := gap;
      assert (s + tail)[0] == s[0];
      SkipNone(s + tail);
    }
  }

  // ---------------------------------------------------------------------------
  // Reading
  // ---------------------------------------------------------------------------

  /** Every faithful value is read from any spaced text of it. */
  lemma {:induction false} SpacedRoundTrip(c: LeafCodec, g: Spacing, t: DataType, v: Value, rest: string)
    requires Lawful(c) && AllWhite(g) && HasType(c, t, v) && Faithful(c, t, v) && Ends(rest)
    ensures ReadField(c, t, Spaced(c, g, v) + rest) == Ok(Parsed(v, rest))
    decreases t, 3
  {
    hide Lawful, AllWhite, HasType, Faithful, ReadField, Spaced, Ends;
    match t {
      case Nullable(inner) => SpacedNullable(c, g, inner, v, rest);
      case Array(e) => SpacedArray(c, g, e, v, rest);
      case Map(inner) => SpacedMap(c, g, inner, v, rest);
      case Tuple(ts) => SpacedTuple(c, g, ts, v, rest);
      case _ => SpacedLeaf(c, g, t, v, rest);
    }
  }

  lemma {:induction false} SpacedLeaf(c: LeafCodec, g: Spacing, t: DataType, v: Value, rest: string)
    requires Lawful(c) && IsLeaf(t) && HasType(c, t, v) && Faithful(c, t, v) && Ends(rest)
    ensures ReadField(c, t, Spaced(c, g, v) + rest) == Ok(Parsed(v, rest))
  {
    assert LeafAgrees(c, t, v, rest);
  }

  lemma {:induction false} SpacedNullable(c: LeafCodec, g: Spacing, inner: DataType, v: Value, rest: string)
    requires Lawful(c) && AllWhite(g) && HasType(c, Nullable(inner), v) && Faithful(c, Nullable(inner), v) && Ends(rest)
    ensures ReadField(c, Nullable(inner), Spaced(c, g, v) + rest) == Ok(Parsed(v, rest))
    decreases inner, 6
  {
    hide AllWhite, HasType, Faithful, ReadField, Spaced;
    var s := Spaced(c, g, v) + rest;
    NullableParts(c, g, inner, v, s);
    if v.Null? {
      assert s == "NULL" + rest && s[..4] == "NULL" && s[4..] == rest;
    } else {
      SpacedHead(c, g, v);
      if StartsWith(s, "NULL") {
        assert s[..4][0] == s[0];
      }
      SpacedRoundTrip(c, g, inner, v, rest);
    }
  }

  lemma NullableParts(c: LeafCodec, g: Spacing, inner: DataType, v: Value, s: string)
    requires Lawful(c) && HasType(c, Nullable(inner), v) && Faithful(c, Nullable(inner), v)
    ensures v.Null? ==> Spaced(c, g, v) == "NULL"
    ensures !v.Null? ==> HasType(c, inner, v) && Faithful(c, inner, v)
    ensures ReadField(c, Nullable(inner), s) ==
            if StartsWith(s, "NULL") then Ok(Parsed(Value.Null, s[4..])) else ReadField(c, inner, s)
  {
  }

  lemma {:induction false} SpacedArray(c: LeafCodec, g: Spacing, e: DataType, v: Value, rest: string)
    requires Lawful(c) && AllWhite(g) && HasType(c, DataType.Array(e), v) && Faithful(c, DataType.Array(e), v)
    ensures ReadField(c, DataType.Array(e), Spaced(c, g, v) + rest) == Ok(Parsed(v, rest))
    decreases e, 6
  {
    hide Lawful, AllWhite, ReadItems, SpacedItems, HasType, Faithful, ReadField, Spaced;
    ArrayParts(c, e, v);
    var inside := if v.items == [] then g.empty else SpacedItems(c, g, v.items, true);
    if v.items == [] {
      EmptyList(c, e, g, rest);
    } else {
      ItemsRead(c, g, e, v.items, true, "", rest);
      assert "" + (inside + ("]" + rest)) == inside + ("]" + rest);
    }
    ArrayText(c, g, e, v, inside, rest);
  }

  lemma ArrayText(c: LeafCodec, g: Spacing, e: DataType, v: Value, inside: string, rest: string)
    requires v.Array? && inside == if v.items == [] then g.empty else SpacedItems(c, g, v.items, true)
    requires ReadItems(c, e, inside + ("]" + rest), true) == Ok(Parsed(v.items, rest))
    ensures ReadField(c, DataType.Array(e), Spaced(c, g, v) + rest) == Ok(Parsed(v, rest))
  {
    hide ReadItems, SpacedItems;
    var s := Spaced(c, g, v) + rest;
    assert s == "[" + (inside + ("]" + rest)) && s[1..] == inside + ("]" + rest);
    assert v == Value.Array(v.items);
  }

  lemma ArrayParts(c: LeafCodec, e: DataType, v: Value)
    requires HasType(c, DataType.Array(e), v) && Faithful(c, DataType.Array(e), v)
    ensures v.Array? && ItemsHaveType(c, e, v.items) && FaithfulItems(c, e, v.items, true)
  {
  }

  lemma EmptyList(c: LeafCodec, e: DataType, g: Spacing, rest: string)
    requires AllWhite(g)
    ensures ReadItems(c, e, g.empty + ("]" + rest), true) == Ok(Parsed([], rest))
  {
    SkipGap(g.empty, "]" + rest);
    SkipNone("]" + rest);
    assert ("]" + rest)[1..] == rest;
  }

  /** What stands behind the first of some items. */
  lemma {:induction false} ItemsShape(c: LeafCodec, g: Spacing, vs: seq<Value>, first: bool, close: string)
    requires vs != [] && Follows(close) && close != ""
    ensures var next := SpacedItems(c, g, vs[1..], false) + close;
            && SpacedItems(c, g, vs, first) + close
               == (if first then "" else ",") + (g.before(vs[0]) + (Spaced(c, g, vs[0]) + (g.after(vs[0]) + next)))
            && Follows(next) && next != "" && (|vs| > 1 ==> next[0] == ',')
  {
    hide Spaced;
    var b, s, a, m := g.before(vs[0]), Spaced(c, g, vs[0]), g.after(vs[0]), SpacedItems(c, g, vs[1..], false);
    assert b + s + a + m + close == b + (s + (a + (m + close)));
    if |vs| > 1 {
      assert m[0] == ',';
    } else {
      assert m + close == close;
    }
  }

  lemma WhiteAround(g: Spacing, v: Value)
    requires AllWhite(g)
    ensures White(g.before(v)) && White(g.after(v))
  {
  }

  /** The list has an item behind the first, if that has no text. */
  lemma FirstHasText(c: LeafCodec, g: Spacing, e: DataType, vs: seq<Value>)
    requires Lawful(c) && vs != [] && ItemsHaveType(c, e, vs) && FaithfulItems(c, e, vs, true)
    ensures Spaced(c, g, vs[0]) == "" ==> |vs| > 1
    ensures Spaced(c, g, vs[0]) != "" ==> Opens(Spaced(c, g, vs[0])[0])
  {
    SpacedHead(c, g, vs[0]);
  }

  /** One round of the loop over the items, at white space. */
  lemma {:induction false} ItemRound(c: LeafCodec, e: DataType, gap: string, inner: string, item: string, first: bool)
    requires White(gap) && SkipWhite(inner) == item && Solid(item)
    requires first ==> item != "" && item[0] != ']'
    ensures ReadItems(c, e, gap + ((if first then "" else ",") + inner), first)
            == Round(ReadField(c, e, item), x => ReadItems(c, e, x, false))
  {
    hide ReadField;
    SkipNone(item);
    var text := (if first then "" else ",") + inner;
    SkipGap(gap, text);
    if first {
      assert text == inner;
    } else {
      SkipNone(text);
      assert text[0] == ',' && text[1..] == inner;
    }
  }

  lemma {:induction false} NoMoreItems(c: LeafCodec, e: DataType, gap: string, rest: string)
    requires White(gap)
    ensures ReadItems(c, e, gap + ("" + ("]" + rest)), false) == Ok(Parsed([], rest))
  {
    var close := "]" + rest;
    assert "" + close == close;
    SkipGap(gap, close);
    SkipNone(close);
    assert close[1..] == rest;
  }

  /** The rounds of the loop over the items, with white space `gap` in front. */
  lemma {:induction false} ItemsRead(c: LeafCodec, g: Spacing, e: DataType, vs: seq<Value>, first: bool, gap: string,
                                     rest: string)
    requires Lawful(c) && AllWhite(g) && White(gap) && (first ==> vs != [])
    requires ItemsHaveType(c, e, vs) && FaithfulItems(c, e, vs, first)
    ensures ReadItems(c, e, gap + (SpacedItems(c, g, vs, first) + ("]" + rest)), first) == Ok(Parsed(vs, rest))
    decreases e, 4, |vs|
  {
    hide Lawful, AllWhite, HasType, Faithful, SpacedItems, Spaced, Encode, ReadItems, ReadField, White;
    var close := "]" + rest;
    if vs == [] {
      NoItemsSpaced(c, g, first);
      NoMoreItems(c, e, gap, rest);
    } else {
      var v := vs[0];
      ItemsShape(c, g, vs, first, close);
      WhiteAround(g, v);
      var next := SpacedItems(c, g, vs[1..], false) + close;
      var inner := g.before(v) + (Spaced(c, g, v) + (g.after(v) + next));
      var gap' := BeforeValue(c, g, v, g.after(v) + next, g.after(v), next);
      var item := Spaced(c, g, v) + (gap' + next);
      GapEnds(gap' + next, gap', next);
      FaithfulItemsSplit(c, e, vs, first);
      if first {
        FirstHasText(c, g, e, vs);
        FirstIsNoBracket(Spaced(c, g, v), gap' + next);
      }
      SpacedRoundTrip(c, g, e, v, gap' + next);
      ItemsRead(c, g, e, vs[1..], false, gap', rest);
      ItemRound(c, e, gap, inner, item, first);
      assert [v] + vs[1..] == vs;
    }
  }

  lemma NoItemsSpaced(c: LeafCodec, g: Spacing, first: bool)
    ensures SpacedItems(c, g, [], first) == ""
  {
  }

  lemma FirstIsNoBracket(s: string, tail: string)
    requires tail != "" && (if s == "" then tail[0] == ',' else Opens(s[0]))
    ensures s + tail != "" && (s + tail)[0] !in {']', '}'}
  {
  }

  // ---------------------------------------------------------------------------
  // Tuples
  // ---------------------------------------------------------------------------

  lemma {:induction false} SpacedTuple(c: LeafCodec, g: Spacing, ts: seq<DataType>, v: Value, rest: string)
    requires Lawful(c) && AllWhite(g) && HasType(c, DataType.Tuple(ts), v) && Faithful(c, DataType.Tuple(ts), v)
    ensures ReadField(c, DataType.Tuple(ts), Spaced(c, g, v) + rest) == Ok(Parsed(v, rest))
    decreases ts, 6
  {
    hide Lawful, AllWhite, HasType, Faithful, ReadField, ReadFields, Spaced, SpacedFields;
    TupleParts(c, ts, v);
    FieldsRead(c, g, ts, v.items, true, "", rest);
    TupleText(c, g, ts, v, rest);
  }

  lemma TupleParts(c: LeafCodec, ts: seq<DataType>, v: Value)
    requires HasType(c, DataType.Tuple(ts), v) && Faithful(c, DataType.Tuple(ts), v)
    ensures v.Tuple? && FieldsHaveType(c, ts, v.items) && FaithfulFields(c, ts, v.items)
  {
  }

  lemma TupleText(c: LeafCodec, g: Spacing, ts: seq<DataType>, v: Value, rest: string)
    requires v.Tuple?
    requires var fields := SpacedFields(c, g, v.items, true) + (")" + rest);
             ReadFields(c, ts, "" + fields, true) == Ok(Parsed(v.items, rest))
    ensures ReadField(c, DataType.Tuple(ts), Spaced(c, g, v) + rest) == Ok(Parsed(v, rest))
  {
    hide ReadFields, SpacedFields;
    var fields := SpacedFields(c, g, v.items, true) + (")" + rest);
    var s := Spaced(c, g, v) + rest;
    assert s == "(" + fields && s[1..] == fields && "" + fields == fields;
    assert v == Value.Tuple(v.items);
  }

  function GapBehind(g: Spacing, vs: seq<Value>): string
    requires vs != []
  {
    if |vs| == 1 then "" else g.after(vs[0])
  }

  lemma {:induction false} FieldsShape(c: LeafCodec, g: Spacing, vs: seq<Value>, first: bool, close: string)
    requires vs != [] && Follows(close) && close != ""
    ensures var next := SpacedFields(c, g, vs[1..], false) + close;
            && SpacedFields(c, g, vs, first) + close
               == (if first then "" else ",")
                  + (g.before(vs[0]) + (Spaced(c, g, vs[0]) + (GapBehind(g, vs) + next)))
            && Follows(next) && next != ""
  {
    hide Spaced;
    var b, s, a, m := g.before(vs[0]), Spaced(c, g, vs[0]), GapBehind(g, vs), SpacedFields(c, g, vs[1..], false);
    assert b + s + a + m + close == b + (s + (a + (m + close)));
    if |vs| > 1 {
      assert m[0] == ',';
    } else {
      assert m + close == close;
    }
  }

  lemma {:induction false} FieldRound(c: LeafCodec, ts: seq<DataType>, gap: string, inner: string, item: string,
                                      first: bool)
    requires ts != [] && White(gap) && SkipWhite(inner) == item && Solid(item)
    ensures ReadFields(c, ts, gap + ((if first then "" else ",") + inner), first)
            == Round(ReadField(c, ts[0], item), x => ReadFields(c, ts[1..], x, false))
  {
    hide ReadField;
    SkipNone(item);
    var text := (if first then "" else ",") + inner;
    SkipGap(gap, text);
    if first {
      assert text == inner;
    } else {
      SkipNone(text);
      assert text[0] == ',' && text[1..] == inner;
    }
  }

  lemma NoMoreFields(c: LeafCodec, g: Spacing, first: bool, rest: string)
    ensures ReadFields(c, [], "" + (SpacedFields(c, g, [], first) + (")" + rest)), first) == Ok(Parsed([], rest))
  {
    var close := ")" + rest;
    assert "" + ("" + close) == close && close[1..] == rest;
  }

  /** The rounds of the loop over the fields; white space behind the last one would be
  refused. */
  lemma {:induction false} FieldsRead(c: LeafCodec, g: Spacing, ts: seq<DataType>, vs: seq<Value>, first: bool,
                                      gap: string, rest: string)
    requires Lawful(c) && AllWhite(g) && White(gap) && (vs == [] ==> gap == "")
    requires FieldsHaveType(c, ts, vs) && FaithfulFields(c, ts, vs)
    ensures ReadFields(c, ts, gap + (SpacedFields(c, g, vs, first) + (")" + rest)), first) == Ok(Parsed(vs, rest))
    decreases ts, 4
  {
    hide Lawful, AllWhite, HasType, Faithful, SpacedFields, Spaced, Encode, ReadFields, ReadField, White;
    var close := ")" + rest;
    if vs == [] {
      NoMoreFields(c, g, first, rest);
    } else {
      var v := vs[0];
      FieldsShape(c, g, vs, first, close);
      WhiteAround(g, v);
      GapIsWhite(g, vs);
      var next := SpacedFields(c, g, vs[1..], false) + close;
      var inner := g.before(v) + (Spaced(c, g, v) + (GapBehind(g, vs) + next));
      var gap' := BeforeValue(c, g, v, GapBehind(g, vs) + next, GapBehind(g, vs), next);
      var item := Spaced(c, g, v) + (gap' + next);
      GapEnds(gap' + next, gap', next);
      FaithfulFieldsSplit(c, ts, vs);
      SpacedRoundTrip(c, g, ts[0], v, gap' + next);
      FieldsRead(c, g, ts[1..], vs[1..], false, gap', rest);
      FieldRound(c, ts, gap, inner, item, first);
      assert [v] + vs[1..] == vs;
    }
  }

  lemma GapIsWhite(g: Spacing, vs: seq<Value>)
    requires AllWhite(g) && vs != []
    ensures White(GapBehind(g, vs))
  {
  }

  // ---------------------------------------------------------------------------
  // Maps
  // ---------------------------------------------------------------------------

  lemma {:induction false} SpacedMap(c: LeafCodec, g: Spacing, inner: DataType, v: Value, rest: string)
    requires Lawful(c) && AllWhite(g) && HasType(c, DataType.Map(inner), v) && Faithful(c, DataType.Map(inner), v)
    ensures ReadField(c, DataType.Map(inner), Spaced(c, g, v) + rest) == Ok(Parsed(v, rest))
    decreases inner, 6
  {
    hide Lawful, AllWhite, HasType, Faithful, ReadField, ReadEntries, Spaced, SpacedEntries, FaithfulEntries;
    MapParts(c, inner, v);
    var inside := if v.entries == [] then g.empty else SpacedEntries(c, g, v.entries, true);
    if v.entries == [] {
      EmptyMapRead(c, inner, g, rest);
    } else {
      EntriesRead(c, g, inner, v.entries, true, "", rest);
      assert "" + (inside + ("}" + rest)) == inside + ("}" + rest);
    }
    MapText(c, g, inner, v, inside, rest);
  }

  lemma MapParts(c: LeafCodec, inner: DataType, v: Value)
    requires HasType(c, DataType.Map(inner), v) && Faithful(c, DataType.Map(inner), v)
    ensures v.Map? && EntriesHaveType(c, inner, v.entries) && FaithfulEntries(c, inner, v.entries)
  {
  }

  lemma MapText(c: LeafCodec, g: Spacing, inner: DataType, v: Value, inside: string, rest: string)
    requires v.Map? && inner.Tuple?
    requires inside == if v.entries == [] then g.empty else SpacedEntries(c, g, v.entries, true)
    requires ReadEntries(c, inner, inside + ("}" + rest), true) == Ok(Parsed(v.entries, rest))
    ensures ReadField(c, DataType.Map(inner), Spaced(c, g, v) + rest) == Ok(Parsed(v, rest))
  {
    hide ReadEntries, SpacedEntries;
    var s := Spaced(c, g, v) + rest;
    assert s == "{" + (inside + ("}" + rest)) && s[1..] == inside + ("}" + rest);
    assert v == Value.Map(v.entries);
  }

  lemma EmptyMapRead(c: LeafCodec, inner: DataType, g: Spacing, rest: string)
    requires AllWhite(g) && inner.Tuple?
    ensures ReadEntries(c, inner, g.empty + ("}" + rest), true) == Ok(Parsed([], rest))
  {
    SkipGap(g.empty, "}" + rest);
    SkipNone("}" + rest);
    assert ("}" + rest)[1..] == rest;
  }

  /** The text of a value, from its colon on. */
  function ColonText(c: LeafCodec, g: Spacing, v: Value, next: string): string {
    ":" + (g.before(v) + (Spaced(c, g, v) + (g.after(v) + next)))
  }

  lemma {:induction false} EntriesShape(c: LeafCodec, g: Spacing, kvs: seq<(Value, Value)>, first: bool, close: string)
    requires kvs != [] && Follows(close) && close != ""
    ensures var next := SpacedEntries(c, g, kvs[1..], false) + close;
            var (k, v) := kvs[0];
            && SpacedEntries(c, g, kvs, first) + close
               == (if first then "" else ",")
                  + (g.before(k) + (Spaced(c, g, k) + (g.after(k) + ColonText(c, g, v, next))))
            && Follows(next) && next != ""
  {
    hide Spaced;
    var (k, v) := kvs[0];
    var m := SpacedEntries(c, g, kvs[1..], false);
    var sep, entry := if first then "" else ",", SpacedEntry(c, g, kvs[0]);
    assert kvs[0] == (k, v);
    EntryShape(g.before(k), Spaced(c, g, k), g.after(k), g.before(v), Spaced(c, g, v), g.after(v), m, close);
    assert SpacedEntries(c, g, kvs, first) == sep + (entry + m);
    assert sep + (entry + m) + close == sep + (entry + m + close);
    assert entry == Around(c, g, k) + (":" + Around(c, g, v));
    assert entry + m + close == g.before(k) + (Spaced(c, g, k) + (g.after(k) + ColonText(c, g, v, m + close)));
    if |kvs| > 1 {
      assert m[0] == ',';
    } else {
      assert m + close == close;
    }
  }

  lemma EntryShape(a: string, b: string, c: string, d: string, e: string, f: string, m: string, close: string)
    ensures a + b + c + (":" + (d + e + f)) + m + close == a + (b + (c + (":" + (d + (e + (f + (m + close)))))))
  {
    var x := ":" + (d + e + f);
    assert a + b + c + x + m + close == a + (b + (c + (x + (m + close))));
    assert x + (m + close) == ":" + (d + (e + (f + (m + close))));
  }

  lemma {:induction false} EntryRound(c: LeafCodec, inner: DataType, gap: string, text: string, entry: string,
                                      first: bool)
    requires inner.Tuple? && White(gap) && SkipWhite(text) == entry && Solid(entry)
    requires first ==> entry != "" && entry[0] != '}'
    ensures ReadEntries(c, inner, gap + ((if first then "" else ",") + text), first)
            == Round(ReadEntry(c, inner, entry), x => ReadEntries(c, inner, x, false))
  {
    hide ReadEntry;
    SkipNone(entry);
    var all := (if first then "" else ",") + text;
    SkipGap(gap, all);
    if first {
      assert all == text;
    } else {
      SkipNone(all);
      assert all[0] == ',' && all[1..] == text;
    }
  }

  /** A key, white space, the colon, white space and a value. */
  lemma {:induction false} EntryRead(c: LeafCodec, g: Spacing, inner: DataType, kv: (Value, Value), gap: string,
                                     next: string)
    returns (gap': string)
    requires Lawful(c) && AllWhite(g) && White(gap) && Follows(next)
    requires EntriesHaveType(c, inner, [kv]) && FaithfulEntries(c, inner, [kv])
    ensures White(gap')
    ensures ReadEntry(c, inner, Spaced(c, g, kv.0) + (gap + ColonText(c, g, kv.1, next)))
            == Ok(Parsed(kv, gap' + next))
    decreases inner, 3
  {
    hide Lawful, AllWhite, HasType, Faithful, Spaced, ReadEntry, ReadField, White;
    assert [kv][0] == kv;
    var colon := ColonText(c, g, kv.1, next);
    WhiteAround(g, kv.1);
    GapEnds(gap + colon, gap, colon);
    gap' := BeforeValue(c, g, kv.1, g.after(kv.1) + next, g.after(kv.1), next);
    GapEnds(gap' + next, gap', next);
    SpacedRoundTrip(c, g, inner.fields[0], kv.0, gap + colon);
    SpacedRoundTrip(c, g, inner.fields[1], kv.1, gap' + next);
    EntryUnfold(c, inner, Spaced(c, g, kv.0) + (gap + colon));
    assert colon[1..] == g.before(kv.1) + (Spaced(c, g, kv.1) + (g.after(kv.1) + next));
  }

  lemma NoMoreEntries(c: LeafCodec, g: Spacing, inner: DataType, gap: string, rest: string)
    requires inner.Tuple? && White(gap)
    ensures ReadEntries(c, inner, gap + (SpacedEntries(c, g, [], false) + ("}" + rest)), false) == Ok(Parsed([], rest))
  {
    var close := "}" + rest;
    assert "" + close == close;
    SkipGap(gap, close);
    SkipNone(close);
    assert close[1..] == rest;
  }

  lemma SplitEntries(c: LeafCodec, inner: DataType, kvs: seq<(Value, Value)>)
    requires kvs != [] && EntriesHaveType(c, inner, kvs) && FaithfulEntries(c, inner, kvs)
    ensures EntriesHaveType(c, inner, [kvs[0]]) && FaithfulEntries(c, inner, [kvs[0]])
    ensures EntriesHaveType(c, inner, kvs[1..]) && FaithfulEntries(c, inner, kvs[1..])
  {
    hide HasType, Faithful;
    assert [kvs[0]][0] == kvs[0];
    assert forall i :: 1 <= i < |kvs| ==> kvs[i] == kvs[1..][i - 1];
  }

  lemma {:induction false} EntriesRead(c: LeafCodec, g: Spacing, inner: DataType, kvs: seq<(Value, Value)>, first: bool,
                                       gap: string, rest: string)
    requires Lawful(c) && AllWhite(g) && White(gap) && (first ==> kvs != [])
    requires EntriesHaveType(c, inner, kvs) && FaithfulEntries(c, inner, kvs)
    ensures ReadEntries(c, inner, gap + (SpacedEntries(c, g, kvs, first) + ("}" + rest)), first)
            == Ok(Parsed(kvs, rest))
    decreases inner, 4, |kvs|
  {
    hide Lawful, AllWhite, HasType, Faithful, SpacedEntries, Spaced, ReadEntries, ReadEntry, White;
    hide EntriesHaveType, FaithfulEntries, ColonText;
    var close := "}" + rest;
    PairIs(c, inner, kvs);
    if kvs == [] {
      NoMoreEntries(c, g, inner, gap, rest);
    } else {
      var (k, v) := kvs[0];
      EntriesShape(c, g, kvs, first, close);
      WhiteAround(g, k);
      var next := SpacedEntries(c, g, kvs[1..], false) + close;
      var colon := ColonText(c, g, v, next);
      ColonFollows(c, g, v, next);
      var text := g.before(k) + (Spaced(c, g, k) + (g.after(k) + colon));
      var gapk := BeforeValue(c, g, k, g.after(k) + colon, g.after(k), colon);
      var entry := Spaced(c, g, k) + (gapk + colon);
      SplitEntries(c, inner, kvs);
      SpacedHead(c, g, k);
      FirstIsNoBrace(Spaced(c, g, k), gapk, colon);
      var gapv := EntryRead(c, g, inner, kvs[0], gapk, next);
      EntriesRead(c, g, inner, kvs[1..], false, gapv, rest);
      EntryRound(c, inner, gap, text, entry, first);
      assert [kvs[0]] + kvs[1..] == kvs;
    }
  }

  lemma PairIs(c: LeafCodec, inner: DataType, kvs: seq<(Value, Value)>)
    requires EntriesHaveType(c, inner, kvs)
    ensures IsPair(inner)
  {
  }

  lemma ColonFollows(c: LeafCodec, g: Spacing, v: Value, next: string)
    ensures var colon := ColonText(c, g, v, next); colon != "" && colon[0] == ':' && Follows(colon)
  {
  }

  lemma FirstIsNoBrace(s: string, gap: string, colon: string)
    requires colon != "" && colon[0] == ':' && (if s == "" then gap == "" else Opens(s[0]))
    ensures s + (gap + colon) != "" && (s + (gap + colon))[0] != '}'
  {
    if s == "" {
      assert s + (gap + colon) == colon;
    }
  }

  // ---------------------------------------------------------------------------
  // The leaves of the driver
  // ---------------------------------------------------------------------------

  /** Every faithful value of the response is read from any spaced text of it. */
  lemma SpacedValueRoundTrip(g: Spacing, t: DataType, v: Value, rest: string)
    requires AllWhite(g) && HasType(HTTP, t, v) && Faithful(HTTP, t, v) && Ends(rest)
    ensures ReadField(HTTP, t, Spaced(HTTP, g, v) + rest) == Ok(Parsed(v, rest))
  {
    hide ReadField, Spaced, HasType, Faithful, Lawful, Ends;
    ValueRoundTrip.HttpIsLawful();
    SpacedRoundTrip(HTTP, g, t, v, rest);
  }

  /** White space in front of the closing parenthesis of a tuple is refused. */
  lemma GapBehindLastField()
    ensures ReadField(HTTP, DataType.Tuple([DataType.Boolean]), "(1 )") == Err(Rejected)
  {
    hide ReadFields;
    assert "(1 )"[1..] == "1 )" && "1 )"[1..] == " )" && "1 )"[..1] == "1";
    LastFieldRead();
  }

  lemma LastFieldRead()
    ensures ReadFields(HTTP, [DataType.Boolean], "1 )", true) == Err(Rejected)
  {
    assert "1 )"[..1] == "1" && "1 )"[1..] == " )" && [DataType.Boolean][1..] == [];
    assert ReadField(HTTP, DataType.Boolean, "1 )") == Ok(Parsed(Value.Boolean(true), " )"));
    assert ReadFields(HTTP, [], " )", false) == Err(Rejected);
  }
}
