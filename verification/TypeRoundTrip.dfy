/** The type parser undoes the type printer. */
module TypeRoundTrip {
  import opened Results
  import opened Digits
  import opened Schema
  import opened TypeText

  // ---------------------------------------------------------------------------
  // Descriptors and their text
  // ---------------------------------------------------------------------------

  /** A name has none of the characters that separate. */
  predicate GoodName(n: string) {
    n != "" && forall i :: 0 <= i < |n| ==> n[i] != '(' && n[i] != ')' && n[i] != ',' && n[i] != ' '
  }

  predicate GoodDesc(d: TypeDesc) {
    GoodName(d.name) && forall i :: 0 <= i < |d.args| ==> GoodDesc(d.args[i])
  }

  /** A descriptor as text. Only an empty tuple keeps its parentheses without
  arguments, and NULL stands behind a nullable one. */
  function DescText(d: TypeDesc): string
    decreases d, 2
  {
    d.name + ArgsText(d.args, d.name) + (if d.nullable then " NULL" else "")
  }

  function ArgsText(ds: seq<TypeDesc>, name: string): string
    decreases ds, 1
  {
    if ds == [] && name != "Tuple" then "" else "(" + AllText(ds) + ")"
  }

  function AllText(ds: seq<TypeDesc>): string
    decreases ds, 0
  {
    if ds == [] then ""
    else if |ds| == 1 then DescText(ds[0])
    else DescText(ds[0]) + (", " + AllText(ds[1..]))
  }

  // ---------------------------------------------------------------------------
  // Inside parentheses a text is one token
  // ---------------------------------------------------------------------------

  /** Within parentheses a text of balanced depth joins the token as it is. */
  ghost predicate Neutral(x: string, depth: int) {
    forall rest, st: ScanState :: st.depth == depth ==> JoinsToken(x, rest, st)
  }

  predicate JoinsToken(x: string, rest: string, st: ScanState) {
    ScanType(x + rest, st) == ScanType(rest, st.(token := st.token + x))
  }

  lemma {:induction false} NeutralNothing(depth: int)
    ensures Neutral("", depth)
  {
    forall rest, st: ScanState | st.depth == depth
      ensures JoinsToken("", rest, st)
    {
      assert "" + rest == rest;
      assert st.token + "" == st.token;
    }
  }

  lemma {:induction false} NeutralJoin(x: string, y: string, depth: int)
    requires Neutral(x, depth) && Neutral(y, depth)
    ensures Neutral(x + y, depth)
  {
    hide ScanType;
    forall rest, st: ScanState | st.depth == depth
      ensures JoinsToken(x + y, rest, st)
    {
      var st' := st.(token := st.token + x);
      assert x + y + rest == x + (y + rest);
      assert st.token + (x + y) == st'.token + y;
      assert JoinsToken(x, y + rest, st);
      assert JoinsToken(y, rest, st');
    }
  }

  /** A character that does not separate at this depth. */
  lemma {:induction false} NeutralChar(c: char, depth: int)
    requires c != '(' && c != ')' && (c == ',' ==> depth != 1) && (c == ' ' ==> depth != 0)
    ensures Neutral([c], depth)
  {
    forall rest, st: ScanState | st.depth == depth
      ensures JoinsToken([c], rest, st)
    {
      assert ([c] + rest)[1..] == rest;
    }
  }

  lemma {:induction false} NeutralName(n: string, depth: int)
    requires forall i :: 0 <= i < |n| ==> n[i] != '(' && n[i] != ')' && n[i] != ',' && n[i] != ' '
    ensures Neutral(n, depth)
  {
    if n == "" {
      NeutralNothing(depth);
    } else {
      NeutralChar(n[0], depth);
      NeutralName(n[1..], depth);
      NeutralJoin([n[0]], n[1..], depth);
      assert [n[0]] + n[1..] == n;
    }
  }

  /** Parentheses around a text that is neutral one level further in. */
  lemma {:induction false} NeutralParens(x: string, depth: int)
    requires depth >= 1 && Neutral(x, depth + 1)
    ensures Neutral("(" + x + ")", depth)
  {
    hide ScanType;
    forall rest, st: ScanState | st.depth == depth
      ensures JoinsToken("(" + x + ")", rest, st)
    {
      var st1 := st.(depth := depth + 1, token := st.token + "(");
      var st2 := st1.(token := st1.token + x);
      OpenStep(x, rest, st);
      assert JoinsToken(x, ")" + rest, st1);
      CloseStep(rest, st2);
      assert st2.token + ")" == st.token + ("(" + x + ")");
      assert st2.(depth := depth, token := st2.token + ")") == st.(token := st.token + ("(" + x + ")"));
    }
  }

  lemma {:induction false} OpenStep(x: string, rest: string, st: ScanState)
    requires st.depth >= 1
    ensures ScanType("(" + x + ")" + rest, st) ==
            ScanType(x + (")" + rest), st.(depth := st.depth + 1, token := st.token + "("))
  {
    assert ("(" + x + ")" + rest)[1..] == x + (")" + rest);
  }

  lemma {:induction false} CloseStep(rest: string, st: ScanState)
    requires st.depth >= 2
    ensures ScanType(")" + rest, st) == ScanType(rest, st.(depth := st.depth - 1, token := st.token + ")"))
  {
    assert (")" + rest)[1..] == rest;
  }

  lemma {:induction false} NeutralSpaceNull(depth: int)
    requires depth >= 1
    ensures Neutral(" NULL", depth)
  {
    NeutralChar(' ', depth);
    NeutralName("NULL", depth);
    NeutralJoin(" ", "NULL", depth);
    assert " " + "NULL" == " NULL";
  }

  lemma {:induction false} NeutralDesc(d: TypeDesc, depth: int)
    requires GoodDesc(d) && depth >= 1
    ensures Neutral(DescText(d), depth)
    decreases d, 2
  {
    hide Neutral;
    NeutralName(d.name, depth);
    if d.args == [] && d.name != "Tuple" {
      NeutralNothing(depth);
    } else {
      NeutralAll(d.args, depth + 1);
      NeutralParens(AllText(d.args), depth);
    }
    NeutralJoin(d.name, ArgsText(d.args, d.name), depth);
    if d.nullable {
      NeutralSpaceNull(depth);
      NeutralJoin(d.name + ArgsText(d.args, d.name), " NULL", depth);
    } else {
      assert DescText(d) == d.name + ArgsText(d.args, d.name);
    }
  }

  lemma {:induction false} NeutralAll(ds: seq<TypeDesc>, depth: int)
    requires (forall i :: 0 <= i < |ds| ==> GoodDesc(ds[i])) && depth >= 2
    ensures Neutral(AllText(ds), depth)
    decreases ds, 0
  {
    hide Neutral;
    if ds == [] {
      NeutralNothing(depth);
    } else if |ds| == 1 {
      NeutralDesc(ds[0], depth);
    } else {
      NeutralDesc(ds[0], depth);
      NeutralAll(ds[1..], depth);
      NeutralChar(',', depth);
      NeutralChar(' ', depth);
      NeutralJoin(",", " ", depth);
      assert "," + " " == ", ";
      NeutralJoin(", ", AllText(ds[1..]), depth);
      NeutralJoin(DescText(ds[0]), ", " + AllText(ds[1..]), depth);
    }
  }

  // ---------------------------------------------------------------------------
  // The parser undoes the text of a descriptor
  // ---------------------------------------------------------------------------

  /** The arguments up to the closing parenthesis, each parsed on its own; `lead` is
  the space behind the comma. */
  lemma {:induction false} ScanArgs(ds: seq<TypeDesc>, lead: string, name: string, done: seq<TypeDesc>, rest: string)
    requires forall i :: 0 <= i < |ds| ==> GoodDesc(ds[i])
    requires lead == "" || (lead == " " && ds != [])
    ensures ScanType(AllText(ds) + (")" + rest), ScanState(1, lead, name, done)) ==
            ScanType(rest, ScanState(0, "", name, done + ds))
    decreases ds, 0
  {
    hide ScanType, DescText, AllText, GoodDesc;
    AllTextIs(ds, ")" + rest);
    if ds == [] {
      NoArgs(rest, name, done);
      assert done + ds == done;
    } else if |ds| == 1 {
      LastArg(ds[0], lead, name, done, rest);
      assert done + ds == done + [ds[0]];
    } else {
      var more := AllText(ds[1..]) + (")" + rest);
      NextArg(ds[0], lead, name, done, more);
      ScanArgs(ds[1..], " ", name, done + [ds[0]], rest);
      assert done + [ds[0]] + ds[1..] == done + ds;
    }
  }

  lemma AllTextIs(ds: seq<TypeDesc>, tail: string)
    ensures ds == [] ==> AllText(ds) + tail == tail
    ensures |ds| == 1 ==> AllText(ds) + tail == DescText(ds[0]) + tail
    ensures |ds| > 1 ==> AllText(ds) + tail == DescText(ds[0]) + (", " + (AllText(ds[1..]) + tail))
  {
    hide DescText;
    assert "" + tail == tail;
    if |ds| > 1 {
      ListShape(DescText(ds[0]), AllText(ds[1..]), tail);
    }
  }

  lemma ListShape(first: string, more: string, tail: string)
    ensures first + (", " + more) + tail == first + (", " + (more + tail))
  {
  }

  lemma {:induction false} NoArgs(rest: string, name: string, done: seq<TypeDesc>)
    ensures ScanType(")" + rest, ScanState(1, "", name, done)) == ScanType(rest, ScanState(0, "", name, done))
  {
    assert (")" + rest)[1..] == rest;
  }

  lemma {:induction false} LastArg(d: TypeDesc, lead: string, name: string, done: seq<TypeDesc>, rest: string)
    requires GoodDesc(d) && (lead == "" || lead == " ")
    ensures ScanType(DescText(d) + (")" + rest), ScanState(1, lead, name, done)) ==
            ScanType(rest, ScanState(0, "", name, done + [d]))
    decreases d, 4
  {
    NeutralDesc(d, 1);
    ParseDescText(d, lead);
    var st := ScanState(1, lead + DescText(d), name, done);
    assert JoinsToken(DescText(d), ")" + rest, ScanState(1, lead, name, done));
    CloseArgument(rest, st, d);
  }

  lemma {:induction false} CloseArgument(rest: string, st: ScanState, d: TypeDesc)
    requires st.depth == 1 && st.token != "" && Parse(st.token) == Ok(d)
    ensures ScanType(")" + rest, st) == ScanType(rest, ScanState(0, "", st.name, st.args + [d]))
  {
    assert (")" + rest)[1..] == rest;
  }

  lemma {:induction false} NextArg(d: TypeDesc, lead: string, name: string, done: seq<TypeDesc>, more: string)
    requires GoodDesc(d) && (lead == "" || lead == " ")
    ensures ScanType(DescText(d) + (", " + more), ScanState(1, lead, name, done)) ==
            ScanType(more, ScanState(1, " ", name, done + [d]))
    decreases d, 4
  {
    NeutralDesc(d, 1);
    ParseDescText(d, lead);
    var st := ScanState(1, lead + DescText(d), name, done);
    assert JoinsToken(DescText(d), ", " + more, ScanState(1, lead, name, done));
    EndArgument(more, st, d);
  }

  lemma {:induction false} EndArgument(more: string, st: ScanState, d: TypeDesc)
    requires st.depth == 1 && st.token != "" && Parse(st.token) == Ok(d)
    ensures ScanType(", " + more, st) == ScanType(more, ScanState(1, " ", st.name, st.args + [d]))
  {
    assert (", " + more)[1..] == " " + more;
    assert (" " + more)[1..] == more;
    assert "" + " " == " ";
  }

  /** What stands behind the name and the arguments. */
  lemma {:induction false} ScanEnd(token: string, name: string, args: seq<TypeDesc>, nullable: bool)
    requires token == "" <==> name != ""
    requires args != [] ==> name != ""
    ensures ScanType(if nullable then " NULL" else "", ScanState(0, token, name, args)) ==
            Ok(TypeDesc(if name == "" then token else name, nullable, args))
  {
    if nullable {
      var named := ScanState(0, "", if name == "" then token else name, args);
      assert " NULL"[1..] == "NULL";
      assert ScanType(" NULL", ScanState(0, token, name, args)) == ScanType("NULL", named);
      NeutralName("NULL", 0);
      assert "NULL" + "" == "NULL";
      assert JoinsToken("NULL", "", named);
      assert "" + "NULL" == "NULL";
    }
  }

  lemma {:induction false} SkipLead(lead: string, s: string)
    requires lead == "" || lead == " "
    ensures Parse(lead + s) == Parse(s)
  {
    if lead == " " {
      assert (lead + s)[1..] == s;
    } else {
      assert lead + s == s;
    }
  }

  /** The parser gives back every good descriptor from its text, also behind the space
  that follows a comma. */
  lemma {:induction false} ParseDescText(d: TypeDesc, lead: string)
    requires GoodDesc(d) && (lead == "" || lead == " ")
    ensures Parse(lead + DescText(d)) == Ok(d)
    decreases d, 3
  {
    hide ScanType, AllText, DescText;
    SkipLead(lead, DescText(d));
    var end := if d.nullable then " NULL" else "";
    var tail := ArgsText(d.args, d.name) + end;
    DescTextIs(d, tail, end);
    NeutralName(d.name, 0);
    assert "" + d.name == d.name;
    assert JoinsToken(d.name, tail, START);
    if d.args == [] && d.name != "Tuple" {
      ScanEnd(d.name, "", [], d.nullable);
    } else {
      OpenArguments(AllText(d.args) + (")" + end), d.name);
      ScanArgs(d.args, "", d.name, [], end);
      assert [] + d.args == d.args;
      ScanEnd("", d.name, d.args, d.nullable);
    }
  }

  lemma {:induction false} DescTextIs(d: TypeDesc, tail: string, end: string)
    requires end == (if d.nullable then " NULL" else "") && tail == ArgsText(d.args, d.name) + end
    ensures DescText(d) == d.name + tail
    ensures tail == if d.args == [] && d.name != "Tuple" then end else "(" + (AllText(d.args) + (")" + end))
  {
    hide AllText;
  }

  lemma {:induction false} OpenArguments(s: string, name: string)
    ensures ScanType("(" + s, ScanState(0, name, "", [])) == ScanType(s, ScanState(1, "", name, []))
  {
    assert ("(" + s)[1..] == s;
  }

  // ---------------------------------------------------------------------------
  // Types and their descriptors
  // ---------------------------------------------------------------------------

  function SimpleName(t: DataType): string {
    match t
    case Null => "Null"
    case EmptyArray => "EmptyArray"
    case EmptyMap => "EmptyMap"
    case Boolean => "Boolean"
    case Binary => "Binary"
    case String => "String"
    case Number(n) => NumberName(n)
    case Decimal(_) => "Decimal"
    case Timestamp => "Timestamp"
    case TimestampTz => "Timestamp_Tz"
    case Date => "Date"
    case Nullable(_) => "Nullable"
    case Array(_) => "Array"
    case Map(_) => "Map"
    case Tuple(_) => "Tuple"
    case Variant => "Variant"
    case Bitmap => "Bitmap"
    case Geometry => "Geometry"
    case Geography => "Geography"
    case Interval => "Interval"
    case Vector(_) => "Vector"
  }

  function Bare(name: string): TypeDesc {
    TypeDesc(name, false, [])
  }

  /** The descriptor of a type. */
  function Desc(t: DataType): TypeDesc
    requires WellFormed(t)
    decreases t, 1
  {
    TypeDesc(SimpleName(t), false,
             match t
             case Decimal(d) => [Bare(DecOf(d.size.precision)), Bare(DecOf(d.size.scale))]
             case Nullable(u) => [Desc(u)]
             case Array(u) => [Desc(u)]
             case Map(u) => [Desc(u.fields[0]), Desc(u.fields[1])]
             case Tuple(ts) => DescAll(ts)
             case Vector(n) => [Bare(DecOf(n))]
             case _ => [])
  }

  function DescAll(ts: seq<DataType>): (ds: seq<TypeDesc>)
    requires forall i :: 0 <= i < |ts| ==> WellFormed(ts[i])
    ensures |ds| == |ts|
    decreases ts, 0
  {
    if ts == [] then [] else [Desc(ts[0])] + DescAll(ts[1..])
  }

  lemma {:induction false} GoodDigits(n: nat)
    ensures GoodDesc(Bare(DecOf(n)))
  {
    assert forall i :: 0 <= i < |DecOf(n)| ==> IsDigit(DecOf(n)[i]);
  }

  lemma NumberNameIsGood(n: NumberDataType)
    ensures GoodName(NumberName(n))
  {
  }

  predicate IsContainer(t: DataType) {
    t.Nullable? || t.Array? || t.Map? || t.Tuple? || t.Vector? || t.Decimal? || t.EmptyArray? || t.EmptyMap?
  }

  lemma ContainerNameIsGood(t: DataType)
    requires IsContainer(t)
    ensures GoodName(SimpleName(t))
  {
  }

  predicate IsTemporal(t: DataType) {
    t.Timestamp? || t.TimestampTz? || t.Date? || t.Interval? || t.Geometry? || t.Geography?
  }

  lemma TemporalNameIsGood(t: DataType)
    requires IsTemporal(t)
    ensures GoodName(SimpleName(t))
  {
  }

  lemma PlainNameIsGood(t: DataType)
    requires !IsContainer(t) && !IsTemporal(t) && !t.Number?
    ensures GoodName(SimpleName(t))
  {
  }

  lemma NameIsGood(t: DataType)
    ensures GoodName(SimpleName(t))
  {
    hide GoodName;
    if t.Number? {
      NumberNameIsGood(t.number);
    } else if IsContainer(t) {
      ContainerNameIsGood(t);
    } else if IsTemporal(t) {
      TemporalNameIsGood(t);
    } else {
      PlainNameIsGood(t);
    }
  }

  lemma {:induction false} DescIsGood(t: DataType)
    requires WellFormed(t)
    ensures GoodDesc(Desc(t))
    decreases t, 1
  {
    hide GoodName, SimpleName;
    NameIsGood(t);
    match t {
      case Decimal(d) =>
        GoodDigits(d.size.precision);
        GoodDigits(d.size.scale);
      case Nullable(u) => DescIsGood(u);
      case Array(u) => DescIsGood(u);
      case Map(u) =>
        DescIsGood(u.fields[0]);
        DescIsGood(u.fields[1]);
      case Tuple(ts) => DescsAreGood(ts);
      case Vector(n) => GoodDigits(n);
      case _ =>
    }
  }

  lemma {:induction false} DescsAreGood(ts: seq<DataType>)
    requires forall i :: 0 <= i < |ts| ==> WellFormed(ts[i])
    ensures forall i :: 0 <= i < |ts| ==> GoodDesc(DescAll(ts)[i])
    decreases ts, 0
  {
    if ts != [] {
      DescIsGood(ts[0]);
      DescsAreGood(ts[1..]);
    }
  }

  lemma {:induction false} TextOfNone(name: string)
    requires name != "Tuple"
    ensures DescText(Bare(name)) == name
  {
  }

  lemma {:induction false} TextOfOne(name: string, a: TypeDesc)
    ensures DescText(TypeDesc(name, false, [a])) == name + "(" + DescText(a) + ")"
  {
    assert AllText([a]) == DescText(a);
  }

  lemma {:induction false} TextOfTwo(name: string, a: TypeDesc, b: TypeDesc)
    ensures DescText(TypeDesc(name, false, [a, b])) == name + "(" + DescText(a) + ", " + DescText(b) + ")"
  {
    assert [a, b][1..] == [b];
    assert AllText([a, b]) == DescText(a) + (", " + DescText(b));
  }

  lemma {:induction false} TextOfTuple(ds: seq<TypeDesc>)
    ensures DescText(TypeDesc("Tuple", false, ds)) == "Tuple(" + AllText(ds) + ")"
  {
    assert "Tuple" + "(" == "Tuple(";
  }

  lemma {:induction false} DigitsText(n: nat)
    ensures DescText(Bare(DecOf(n))) == DecOf(n)
  {
    assert IsDigit(DecOf(n)[0]) && "Tuple"[0] == 'T';
    TextOfNone(DecOf(n));
  }

  lemma {:induction false} SimpleText(t: DataType)
    requires IsSimple(t) || t.Number?
    ensures WellFormed(t) && Print(t) == DescText(Desc(t))
  {
    hide DescText;
    Letters();
    TextOfNone(SimpleName(t));
  }

  lemma Openings()
    ensures "Nullable" + "(" == "Nullable(" && "Array" + "(" == "Array(" && "Map" + "(" == "Map("
    ensures "Decimal" + "(" == "Decimal(" && "Vector" + "(" == "Vector("
  {
  }

  /** The printed type is the text of its descriptor. */
  lemma {:induction false} PrintIsDescText(t: DataType)
    requires WellFormed(t)
    ensures Print(t) == DescText(Desc(t))
    decreases t, 1
  {
    hide DecOf, DescText;
    Openings();
    match t {
      case Nullable(u) =>
        PrintIsDescText(u);
        TextOfOne("Nullable", Desc(u));
      case Array(u) =>
        PrintIsDescText(u);
        TextOfOne("Array", Desc(u));
      case Map(u) =>
        PrintIsDescText(u.fields[0]);
        PrintIsDescText(u.fields[1]);
        TextOfTwo("Map", Desc(u.fields[0]), Desc(u.fields[1]));
      case Tuple(ts) =>
        PrintAllIsDescText(ts);
        TextOfTuple(DescAll(ts));
      case Decimal(d) =>
        TextOfTwo("Decimal", Bare(DecOf(d.size.precision)), Bare(DecOf(d.size.scale)));
        DigitsText(d.size.precision);
        DigitsText(d.size.scale);
      case Vector(n) =>
        DigitsText(n);
        TextOfOne("Vector", Bare(DecOf(n)));
      case _ => SimpleText(t);
    }
  }

  lemma {:induction false} PrintAllIsDescText(ts: seq<DataType>)
    requires forall i :: 0 <= i < |ts| ==> WellFormed(ts[i])
    ensures PrintAll(ts) == AllText(DescAll(ts))
    decreases ts, 0
  {
    if ts != [] {
      PrintIsDescText(ts[0]);
      PrintAllIsDescText(ts[1..]);
      assert DescAll(ts)[1..] == DescAll(ts[1..]);
    }
  }

  // ---------------------------------------------------------------------------
  // From descriptors to types
  // ---------------------------------------------------------------------------

  /** There is no empty collection type in `t`: the printer has a name for them that
  the conversion does not know. */
  predicate NoEmpty(t: DataType)
    requires WellFormed(t)
  {
    match t
    case EmptyArray => false
    case EmptyMap => false
    case Nullable(u) => NoEmpty(u)
    case Array(u) => NoEmpty(u)
    case Map(u) => NoEmpty(u.fields[0]) && NoEmpty(u.fields[1])
    case Tuple(ts) => forall i :: 0 <= i < |ts| ==> NoEmpty(ts[i])
    case _ => true
  }

  /** The width of a decimal is not printed: the precision selects it. */
  function Canonical(t: DataType): DataType
    requires WellFormed(t)
    decreases t, 1
  {
    match t
    case Decimal(d) => Decimal(if d.size.precision <= 38 then Decimal128(d.size) else Decimal256(d.size))
    case Nullable(u) => Nullable(Canonical(u))
    case Array(u) => Array(Canonical(u))
    case Map(u) => Map(Tuple([Canonical(u.fields[0]), Canonical(u.fields[1])]))
    case Tuple(ts) => Tuple(CanonicalAll(ts))
    case _ => t
  }

  function CanonicalAll(ts: seq<DataType>): seq<DataType>
    requires forall i :: 0 <= i < |ts| ==> WellFormed(ts[i])
    decreases ts, 0
  {
    if ts == [] then [] else [Canonical(ts[0])] + CanonicalAll(ts[1..])
  }

  /** Names of the same length differ in these letters. */
  lemma Letters()
    ensures "NULL"[1] == 'U' && "Null"[1] == 'u' && "Int8"[1] == 'n' && "Date"[1] == 'a'
    ensures "Int16"[3] == '1' && "Int32"[3] == '3' && "Int64"[3] == '6' && "UInt8"[3] == 't' && "Array"[3] == 'a'
    ensures "Tuple"[3] == 'l'
    ensures "Binary"[4] == 'r' && "String"[4] == 'n' && "UInt16"[4] == '1' && "UInt32"[4] == '3' && "UInt64"[4] == '6'
    ensures "Bitmap"[4] == 'a' && "Vector"[4] == 'o'
    ensures "Boolean"[6] == 'n' && "Float32"[6] == '2' && "Float64"[6] == '4' && "Decimal"[6] == 'l'
    ensures "Variant"[6] == 't' && "Nothing"[6] == 'g'
    ensures "Nullable"[0] == 'N' && "Geometry"[0] == 'G' && "Interval"[0] == 'I' && "EmptyMap"[0] == 'E'
    ensures "Timestamp"[0] == 'T' && "Geography"[0] == 'G'
  {
  }

  lemma {:induction false} NumberFromName(n: NumberDataType)
    ensures FromBare(NumberName(n), []) == Ok(Number(n))
  {
    Letters();
  }

  predicate IsSimple(t: DataType) {
    !t.Decimal? && !t.Nullable? && !t.Array? && !t.Map? && !t.Tuple? && !t.Vector? && !t.Number?
  }

  lemma {:induction false} SimpleFromName(t: DataType)
    requires IsSimple(t)
    ensures FromBare(SimpleName(t), []) == if t.EmptyArray? || t.EmptyMap? then Err(Rejected) else Ok(t)
  {
    hide FromBare, SimpleName;
    if t.EmptyArray? || t.EmptyMap? {
      EmptyFromName(t);
    } else if t.Null? || t.Boolean? || t.Binary? || t.String? || t.Timestamp? || t.Date? {
      EarlyFromName(t);
    } else {
      LateFromName(t);
    }
  }

  lemma {:induction false} EmptyFromName(t: DataType)
    requires t.EmptyArray? || t.EmptyMap?
    ensures FromBare(SimpleName(t), []) == Err(Rejected)
  {
    Letters();
  }

  lemma {:induction false} EarlyFromName(t: DataType)
    requires t.Null? || t.Boolean? || t.Binary? || t.String? || t.Timestamp? || t.Date?
    ensures FromBare(SimpleName(t), []) == Ok(t)
  {
    Letters();
  }

  lemma {:induction false} LateFromName(t: DataType)
    requires t.TimestampTz? || t.Variant? || t.Bitmap? || t.Geometry? || t.Geography? || t.Interval?
    ensures FromBare(SimpleName(t), []) == Ok(t)
  {
    hide FromBare, SimpleName;
    if t.TimestampTz? || t.Geography? {
      LongFromName(t);
    } else if t.Geometry? || t.Interval? {
      EightFromName(t);
    } else {
      ShortFromName(t);
    }
  }

  lemma {:induction false} LongFromName(t: DataType)
    requires t.TimestampTz? || t.Geography?
    ensures FromBare(SimpleName(t), []) == Ok(t)
  {
    Letters();
  }

  lemma {:induction false} EightFromName(t: DataType)
    requires t.Geometry? || t.Interval?
    ensures FromBare(SimpleName(t), []) == Ok(t)
  {
    Letters();
  }

  lemma {:induction false} ShortFromName(t: DataType)
    requires t.Variant? || t.Bitmap?
    ensures FromBare(SimpleName(t), []) == Ok(t)
  {
    Letters();
  }

  lemma {:induction false} DecimalFromName(p: U8, s: U8)
    ensures FromBare("Decimal", [Bare(DecOf(p)), Bare(DecOf(s))]) == Ok(Decimal(MakeDecimalType(p, s)))
  {
    Letters();
    ParseIntText(p, 0, 255);
    ParseIntText(s, 0, 255);
  }

  lemma {:induction false} VectorFromName(n: U64)
    ensures FromBare("Vector", [Bare(DecOf(n))]) == Ok(Vector(n))
  {
    Letters();
    ParseIntText(n, 0, 0xFFFF_FFFF_FFFF_FFFF);
  }

  /** No type is named Nothing. */
  lemma {:induction false} NotNothing(t: DataType)
    ensures SimpleName(t) != "Nothing"
  {
    Letters();
  }

  lemma {:induction false} ArrayFromName(d: TypeDesc)
    requires d.name != "Nothing"
    ensures FromBare("Array", [d]) == match FromDesc(d) case Ok(t) => Ok(Array(t)) case Err(e) => Err(e)
  {
    Letters();
    hide FromDesc;
  }

  lemma {:induction false} NullableFromName(d: TypeDesc)
    ensures FromBare("Nullable", [d]) == match FromDesc(d) case Ok(t) => Ok(Nullable(t)) case Err(e) => Err(e)
  {
    Letters();
    hide FromDesc;
  }

  lemma {:induction false} MapFromName(a: TypeDesc, b: TypeDesc)
    ensures FromBare("Map", [a, b]) ==
            match FromDesc(a)
            case Err(e) => Err(e)
            case Ok(k) =>
              match FromDesc(b)
              case Err(e) => Err(e)
              case Ok(v) => Ok(Map(Tuple([k, v])))
  {
    hide FromDesc;
    Letters();
  }

  lemma {:induction false} TupleFromName(ds: seq<TypeDesc>)
    ensures FromBare("Tuple", ds) == match FromAll(ds) case Ok(ts) => Ok(Tuple(ts)) case Err(e) => Err(e)
  {
    hide FromAll;
    Letters();
  }

  lemma BareDesc(d: TypeDesc)
    requires !d.nullable
    ensures FromDesc(d) == FromBare(d.name, d.args)
  {
    hide FromBare;
  }

  /** The types without parts. */
  lemma {:induction false} LeafFromDesc(t: DataType)
    requires !t.Nullable? && !t.Array? && !t.Map? && !t.Tuple?
    ensures FromDesc(Desc(t)) == if NoEmpty(t) then Ok(Canonical(t)) else Err(Rejected)
  {
    hide FromBare, FromDesc;
    BareDesc(Desc(t));
    match t {
      case Number(n) => NumberFromName(n);
      case Decimal(d) => DecimalFromName(d.size.precision, d.size.scale);
      case Vector(n) => VectorFromName(n);
      case _ => SimpleFromName(t);
    }
  }

  /** A descriptor gives back its type, unless there is an empty collection in it. */
  lemma {:induction false} FromDescOf(t: DataType)
    requires WellFormed(t)
    ensures FromDesc(Desc(t)) == if NoEmpty(t) then Ok(Canonical(t)) else Err(Rejected)
    decreases t, 1
  {
    hide FromBare, FromDesc;
    BareDesc(Desc(t));
    match t {
      case Nullable(u) =>
        FromDescOf(u);
        NullableFromName(Desc(u));
      case Array(u) =>
        FromDescOf(u);
        NotNothing(u);
        ArrayFromName(Desc(u));
      case Map(u) =>
        FromDescOf(u.fields[0]);
        FromDescOf(u.fields[1]);
        MapFromName(Desc(u.fields[0]), Desc(u.fields[1]));
      case Tuple(ts) =>
        FromDescsOf(ts);
        TupleFromName(DescAll(ts));
      case _ => LeafFromDesc(t);
    }
  }

  lemma {:induction false} FromDescsOf(ts: seq<DataType>)
    requires forall i :: 0 <= i < |ts| ==> WellFormed(ts[i])
    ensures FromAll(DescAll(ts)) ==
            if forall i :: 0 <= i < |ts| ==> NoEmpty(ts[i]) then Ok(CanonicalAll(ts)) else Err(Rejected)
    decreases ts, 0
  {
    hide FromDesc, Desc, Canonical, NoEmpty;
    if ts != [] {
      FromDescOf(ts[0]);
      FromDescsOf(ts[1..]);
      assert DescAll(ts)[1..] == DescAll(ts[1..]);
      assert forall i :: 1 <= i < |ts| ==> ts[i] == ts[1..][i - 1];
    }
  }

  // ---------------------------------------------------------------------------
  // The round trip
  // ---------------------------------------------------------------------------

  /** Every printed type is parsed back as itself, with the width of its decimals made
  canonical; a type with an empty collection in it is refused. */
  lemma {:induction false} TypeRoundTripText(t: DataType)
    requires WellFormed(t)
    ensures FromText(Print(t)) == if NoEmpty(t) then Ok(Canonical(t)) else Err(Rejected)
  {
    hide Parse, FromDesc, Print, Desc, DescText, GoodDesc, NoEmpty, Canonical, WellFormed;
    PrintIsDescText(t);
    DescIsGood(t);
    ParseDescText(Desc(t), "");
    assert "" + Print(t) == Print(t);
    FromDescOf(t);
  }

  /** With NULL behind it, a printed type is parsed as the nullable one. */
  lemma {:induction false} NullableRoundTrip(t: DataType)
    requires WellFormed(t)
    ensures FromText(Print(t) + " NULL") == if NoEmpty(t) then Ok(Nullable(Canonical(t))) else Err(Rejected)
  {
    hide Parse, FromDesc, Print, Desc, DescText, GoodDesc, NoEmpty, Canonical, WellFormed;
    var d := Desc(t).(nullable := true);
    PrintIsDescText(t);
    DescIsGood(t);
    NotNullable(t);
    MadeNullable(Desc(t));
    ParseDescText(d, "");
    assert "" + DescText(d) == DescText(d);
    FromDescOf(t);
  }

  lemma NotNullable(t: DataType)
    requires WellFormed(t)
    ensures !Desc(t).nullable
  {
  }

  lemma MadeNullable(d: TypeDesc)
    requires !d.nullable && GoodDesc(d)
    ensures var n := d.(nullable := true);
            && GoodDesc(n) && DescText(n) == DescText(d) + " NULL"
            && FromDesc(n) == match FromDesc(d) case Ok(t) => Ok(Nullable(t)) case Err(e) => Err(e)
  {
    hide ArgsText, FromBare;
    var text := d.name + ArgsText(d.args, d.name);
    assert text + "" == text;
  }

  // ---------------------------------------------------------------------------
  // The texts of the server
  // ---------------------------------------------------------------------------

  /** The descriptor of a type in the texts of the server: an empty collection is one of
  Nothing, and a nullable type within another may have NULL behind it instead of
  Nullable in front. */
  function ServerDesc(t: DataType, suffix: bool): TypeDesc
    requires WellFormed(t)
    decreases t, 1
  {
    match t
    case EmptyArray => TypeDesc("Array", false, [Bare("Nothing")])
    case EmptyMap => TypeDesc("Map", false, [Bare("Nothing")])
    case Nullable(u) =>
      if suffix && !u.Nullable? then ServerDesc(u, suffix).(nullable := true)
      else TypeDesc("Nullable", false, [ServerDesc(u, suffix)])
    case Array(u) => TypeDesc("Array", false, [ServerDesc(u, suffix)])
    case Map(u) => TypeDesc("Map", false, [ServerDesc(u.fields[0], suffix), ServerDesc(u.fields[1], suffix)])
    case Tuple(ts) => TypeDesc("Tuple", false, ServerDescs(ts, suffix))
    case _ => Desc(t)
  }

  function ServerDescs(ts: seq<DataType>, suffix: bool): (ds: seq<TypeDesc>)
    requires forall i :: 0 <= i < |ts| ==> WellFormed(ts[i])
    ensures |ds| == |ts|
    decreases ts, 0
  {
    if ts == [] then [] else [ServerDesc(ts[0], suffix)] + ServerDescs(ts[1..], suffix)
  }

  lemma NothingIsGood()
    ensures GoodDesc(Bare("Nothing"))
  {
  }

  lemma {:induction false} ServerIsGood(t: DataType, suffix: bool)
    requires WellFormed(t)
    ensures GoodDesc(ServerDesc(t, suffix))
    ensures !t.Nullable? ==> !ServerDesc(t, suffix).nullable
    ensures ServerDesc(t, suffix).name != "Nothing"
    decreases t, 1
  {
    hide GoodName, SimpleName, Desc;
    NameIsGood(t);
    NotNothing(t);
    NotNothing(Array(t));
    NotNothing(Map(t));
    match t {
      case EmptyArray =>
        NameIsGood(Array(t));
        NothingIsGood();
        SimpleNames();
      case EmptyMap =>
        NameIsGood(Map(t));
        NothingIsGood();
        SimpleNames();
      case Nullable(u) =>
        ServerIsGood(u, suffix);
        SimpleNames();
      case Array(u) =>
        ServerIsGood(u, suffix);
        SimpleNames();
      case Map(u) =>
        ServerIsGood(u.fields[0], suffix);
        ServerIsGood(u.fields[1], suffix);
        SimpleNames();
      case Tuple(ts) =>
        ServersAreGood(ts, suffix);
        SimpleNames();
      case _ =>
        DescIsGood(t);
        DescName(t);
    }
  }

  lemma SimpleNames()
    ensures forall t: DataType ::
              && (t.Nullable? ==> SimpleName(t) == "Nullable") && (t.Array? ==> SimpleName(t) == "Array")
              && (t.Map? ==> SimpleName(t) == "Map") && (t.Tuple? ==> SimpleName(t) == "Tuple")
  {
  }

  lemma DescName(t: DataType)
    requires WellFormed(t)
    ensures Desc(t).name == SimpleName(t) && !Desc(t).nullable
  {
  }

  lemma {:induction false} ServersAreGood(ts: seq<DataType>, suffix: bool)
    requires forall i :: 0 <= i < |ts| ==> WellFormed(ts[i])
    ensures forall i :: 0 <= i < |ts| ==> GoodDesc(ServerDescs(ts, suffix)[i])
    decreases ts, 0
  {
    if ts != [] {
      ServerIsGood(ts[0], suffix);
      ServersAreGood(ts[1..], suffix);
    }
  }

  lemma OfNothing()
    ensures FromBare("Array", [Bare("Nothing")]) == Ok(EmptyArray)
    ensures FromBare("Map", [Bare("Nothing")]) == Ok(EmptyMap)
  {
    Letters();
  }

  lemma {:induction false} FromServerDesc(t: DataType, suffix: bool)
    requires WellFormed(t)
    ensures FromDesc(ServerDesc(t, suffix)) == Ok(Canonical(t))
    decreases t, 1
  {
    hide FromBare, FromDesc, Desc, GoodDesc;
    ServerIsGood(t, suffix);
    match t {
      case EmptyArray =>
        OfNothing();
        BareDesc(ServerDesc(t, suffix));
      case EmptyMap =>
        OfNothing();
        BareDesc(ServerDesc(t, suffix));
      case Nullable(u) =>
        FromServerDesc(u, suffix);
        ServerIsGood(u, suffix);
        NullableFromName(ServerDesc(u, suffix));
        if suffix && !u.Nullable? {
          MadeNullable(ServerDesc(u, suffix));
        } else {
          BareDesc(ServerDesc(t, suffix));
        }
      case Array(u) =>
        FromServerDesc(u, suffix);
        ServerIsGood(u, suffix);
        ArrayFromName(ServerDesc(u, suffix));
        BareDesc(ServerDesc(t, suffix));
      case Map(u) =>
        FromServerDesc(u.fields[0], suffix);
        FromServerDesc(u.fields[1], suffix);
        MapFromName(ServerDesc(u.fields[0], suffix), ServerDesc(u.fields[1], suffix));
        BareDesc(ServerDesc(t, suffix));
      case Tuple(ts) =>
        FromServerDescs(ts, suffix);
        TupleFromName(ServerDescs(ts, suffix));
        BareDesc(ServerDesc(t, suffix));
      case _ => LeafFromDesc(t);
    }
  }

  lemma {:induction false} FromServerDescs(ts: seq<DataType>, suffix: bool)
    requires forall i :: 0 <= i < |ts| ==> WellFormed(ts[i])
    ensures FromAll(ServerDescs(ts, suffix)) == Ok(CanonicalAll(ts))
    decreases ts, 0
  {
    hide FromDesc, ServerDesc, Canonical;
    if ts != [] {
      FromServerDesc(ts[0], suffix);
      FromServerDescs(ts[1..], suffix);
      assert ServerDescs(ts, suffix)[1..] == ServerDescs(ts[1..], suffix);
    }
  }

  /** Every type is read from the text of the server, empty collections included. */
  lemma {:induction false} ServerRoundTrip(t: DataType, suffix: bool)
    requires WellFormed(t)
    ensures FromText(DescText(ServerDesc(t, suffix))) == Ok(Canonical(t))
  {
    hide Parse, FromDesc, DescText, GoodDesc, Canonical, WellFormed, ServerDesc;
    ServerIsGood(t, suffix);
    ParseDescText(ServerDesc(t, suffix), "");
    assert "" + DescText(ServerDesc(t, suffix)) == DescText(ServerDesc(t, suffix));
    FromServerDesc(t, suffix);
  }

  /** A NULL within Nullable is not ignored: the type is nullable twice. */
  lemma {:induction false} NullableTwice(t: DataType)
    requires WellFormed(t) && NoEmpty(t)
    ensures FromText("Nullable(" + (Print(t) + " NULL") + ")") == Ok(Nullable(Nullable(Canonical(t))))
  {
    hide Parse, FromDesc, FromBare, Print, Desc, DescText, NoEmpty, Canonical, WellFormed, GoodName;
    var inner := Desc(t).(nullable := true);
    var d := TypeDesc("Nullable", false, [inner]);
    PrintIsDescText(t);
    DescIsGood(t);
    NotNullable(t);
    MadeNullable(Desc(t));
    NameIsGood(Nullable(t));
    SimpleNames();
    TextOfOne("Nullable", inner);
    Openings();
    ParseDescText(d, "");
    assert "" + DescText(d) == DescText(d);
    FromDescOf(t);
    NullableFromName(inner);
    BareDesc(d);
  }

  /** Descriptors with the wrong number of arguments: an error for the collections, a panic
  where the source indexes the arguments. */
  lemma {:induction false} WrongArity(args: seq<TypeDesc>)
    ensures |args| != 1 ==> FromBare("Nullable", args) == FromBare("Array", args) == Err(Rejected)
    ensures |args| != 2 && !(|args| == 1 && args[0].name == "Nothing") ==> FromBare("Map", args) == Err(Rejected)
    ensures args == [] ==> FromBare("Decimal", args) == FromBare("Vector", args) == Err(Panicked)
    ensures |args| == 1 && ParseU8(args[0].name).Ok? ==> FromBare("Decimal", args) == Err(Panicked)
  {
    hide FromDesc;
    Letters();
  }

  // ---------------------------------------------------------------------------
  // Texts that are refused
  // ---------------------------------------------------------------------------

  /** How many parentheses are opened in `s` and not closed. */
  function Unclosed(s: string): int {
    if s == "" then 0
    else (if s[0] == '(' then 1 else if s[0] == ')' then -1 else 0) + Unclosed(s[1..])
  }

  lemma {:induction false} ScanBalances(s: string, st: ScanState)
    ensures ScanType(s, st).Ok? ==> st.depth + Unclosed(s) == 0
    ensures ScanType(s, st).Err? ==> ScanType(s, st) == Err(Rejected)
    decreases |st.token| + |s|, 0, |s|
  {
    if s != "" {
      var c, rest := s[0], s[1..];
      if c == '(' {
        ScanBalances(rest, if st.depth == 0 then ScanState(1, "", st.token, st.args)
                           else st.(depth := st.depth + 1, token := st.token + "("));
      } else if c == ')' && st.depth != 1 {
        ScanBalances(rest, st.(depth := st.depth - 1, token := st.token + ")"));
      } else if c == ')' && st.token == "" {
        ScanBalances(rest, st.(depth := 0));
      } else if c == ')' {
        ScanBalances(st.token, START);
        if Parse(st.token).Ok? {
          ScanBalances(rest, ScanState(0, "", st.name, st.args + [Parse(st.token).value]));
        }
      } else if c == ',' && st.depth == 1 {
        ScanBalances(st.token, START);
        if Parse(st.token).Ok? {
          ScanBalances(rest, st.(token := "", args := st.args + [Parse(st.token).value]));
        }
      } else if c == ' ' && st.depth == 0 {
        ScanBalances(rest, st.(token := "", name := if st.token == "" then st.name else st.token));
      } else {
        ScanBalances(rest, st.(token := st.token + [c]));
      }
    }
  }

  /** A text whose parentheses do not balance is refused, and none makes the parser panic. */
  lemma UnbalancedRefused(s: string)
    ensures Unclosed(s) != 0 ==> Parse(s) == Err(Rejected)
    ensures Parse(s) != Err(Panicked)
  {
    ScanBalances(s, START);
  }

  /** A word behind a type is refused unless it is NULL. */
  lemma {:induction false} TrailingWord(d: TypeDesc, word: string)
    requires GoodDesc(d) && !d.nullable && GoodName(word)
    ensures Parse(DescText(d) + (" " + word)) == if word == "NULL" then Ok(d.(nullable := true)) else Err(Rejected)
  {
    hide ScanType, AllText, DescText;
    var end := " " + word;
    DescTextIs(d, ArgsText(d.args, d.name) + "", "");
    NeutralName(d.name, 0);
    assert "" + d.name == d.name;
    if d.args == [] && d.name != "Tuple" {
      assert DescText(d) + end == d.name + end;
      assert JoinsToken(d.name, end, START);
      ScanWord(d.name, "", [], word);
    } else {
      var tail := "(" + (AllText(d.args) + (")" + end));
      assert DescText(d) + end == d.name + tail;
      assert JoinsToken(d.name, tail, START);
      OpenArguments(AllText(d.args) + (")" + end), d.name);
      ScanArgs(d.args, "", d.name, [], end);
      assert [] + d.args == d.args;
      ScanWord("", d.name, d.args, word);
    }
  }

  lemma {:induction false} ScanWord(token: string, name: string, args: seq<TypeDesc>, word: string)
    requires (token == "" <==> name != "") && (args != [] ==> name != "") && GoodName(word)
    ensures ScanType(" " + word, ScanState(0, token, name, args)) ==
            if word == "NULL" then Ok(TypeDesc(if name == "" then token else name, true, args)) else Err(Rejected)
  {
    var named := ScanState(0, "", if name == "" then token else name, args);
    assert (" " + word)[1..] == word;
    NeutralName(word, 0);
    assert word + "" == word && "" + word == word;
    assert JoinsToken(word, "", named);
    assert ScanType(word, named) == ScanType("", named.(token := word));
  }

  /** The type of nothing but NULL goes by two names. */
  lemma NullNames()
    ensures FromBare("NULL", []) == FromBare("Null", []) == Ok(Null)
  {
  }
}
