/** Parameters as SQL text (`driver/src/params.rs`). */
module SqlLiterals {
  import opened Digits
  import opened Results
  import opened Cursors

  /** The characters of a JSON number. */
  predicate IsNumberChar(c: char) {
    IsDigit(c) || c in "+-.eE"
  }

  type NumberText = s: string | s != "" && forall i :: 0 <= i < |s| ==> IsNumberChar(s[i]) witness "0"

  /** A JSON value. A number and an object are known by the text that prints them. */
  datatype Json =
    | Null
    | Bool(b: bool)
    | Number(digits: NumberText)
    | Str(s: string)
    | Array(items: seq<Json>)
    | Object(text: string)

  /** `str::replace` of one character. */
  function Replace(s: string, c: char, to: string): string {
    if s == "" then "" else (if s[0] == c then to else [s[0]]) + Replace(s[1..], c, to)
  }

  function QuoteSqlString(s: string): string {
    "'" + Replace(Replace(s, '\\', "\\\\"), '\'', "''") + "'"
  }

  function SqlText(v: Json): (r: string)
    ensures r != ""
  {
    match v
    case Null => "NULL"
    case Bool(b) => if b then "TRUE" else "FALSE"
    case Number(text) => text
    case Str(s) => QuoteSqlString(s)
    case Array(items) => "[" + SqlTexts(items) + "]"
    case Object(text) => QuoteSqlString(text) + "::JSON"
  }

  function SqlTexts(items: seq<Json>): string {
    if items == [] then ""
    else if |items| == 1 then SqlText(items[0])
    else SqlText(items[0]) + ", " + SqlTexts(items[1..])
  }

  // ---------------------------------------------------------------------------
  // Literals read back
  // ---------------------------------------------------------------------------

  /** Both replacements, in one pass. */
  function Escaped(s: string): string {
    if s == "" then ""
    else (if s[0] == '\\' then "\\\\" else if s[0] == '\'' then "''" else [s[0]]) + Escaped(s[1..])
  }

  lemma ReplaceCons(s: string, c: char, to: string)
    ensures s == "" ==> Replace(s, c, to) == ""
    ensures s != "" ==> Replace(s, c, to) == (if s[0] == c then to else [s[0]]) + Replace(s[1..], c, to)
  {
  }

  lemma {:induction false} ReplaceAppend(a: string, b: string, c: char, to: string)
    ensures Replace(a + b, c, to) == Replace(a, c, to) + Replace(b, c, to)
  {
    hide Replace;
    ReplaceCons(a, c, to);
    if a == "" {
      assert a + b == b;
    } else {
      ReplaceAppend(a[1..], b, c, to);
      ReplaceCons(a + b, c, to);
      assert (a + b)[1..] == a[1..] + b;
    }
  }

  lemma {:induction false} ReplaceShort(c: char)
    ensures Replace("\\\\", '\'', "''") == "\\\\"
    ensures Replace([c], '\'', "''") == if c == '\'' then "''" else [c]
  {
    assert "\\\\"[1..] == "\\" && "\\"[1..] == "" && [c][1..] == "";
  }

  /** The second replacement does not disturb the first. */
  lemma {:induction false} EscapedIs(s: string)
    ensures Replace(Replace(s, '\\', "\\\\"), '\'', "''") == Escaped(s)
  {
    if s != "" {
      EscapedIs(s[1..]);
      var first := if s[0] == '\\' then "\\\\" else [s[0]];
      ReplaceAppend(first, Replace(s[1..], '\\', "\\\\"), '\'', "''");
      ReplaceShort(s[0]);
    }
  }

  lemma {:induction false} EscapedBody(s: string, rest: string)
    requires rest == "" || rest[0] != '\''
    ensures QuotedBody(Escaped(s) + "'" + rest, '\'') == Ok(Parsed(s, rest))
  {
    hide QuotedBody;
    if s == "" {
      ClosingQuote(rest);
    } else {
      EscapedBody(s[1..], rest);
      EscapedStep(s[0], Escaped(s[1..]) + "'" + rest);
      var head := if s[0] == '\\' then "\\\\" else if s[0] == '\'' then "''" else [s[0]];
      assert Escaped(s) + "'" + rest == head + (Escaped(s[1..]) + "'" + rest);
      assert [s[0]] + s[1..] == s;
    }
  }

  lemma ClosingQuote(rest: string)
    requires rest == "" || rest[0] != '\''
    ensures QuotedBody("" + "'" + rest, '\'') == Ok(Parsed("", rest))
  {
    var t := "" + "'" + rest;
    assert t[0] == '\'' && t[1..] == rest;
  }

  lemma {:induction false} EscapedStep(c: char, t: string)
    ensures var head := if c == '\\' then "\\\\" else if c == '\'' then "''" else [c];
            QuotedBody(head + t, '\'') == Prepend([c], QuotedBody(t, '\''))
  {
    var head := if c == '\\' then "\\\\" else if c == '\'' then "''" else [c];
    assert (head + t)[0] == head[0] && (head + t)[|head|..] == t;
    if |head| == 2 {
      assert (head + t)[1] == head[1];
    }
  }

  /** A quoted string is read back as one literal: exactly the string, and the reader
  stops where it ends, unless a quote follows, which would be taken into it. */
  lemma {:induction false} QuotedSqlRoundTrip(s: string, rest: string)
    ensures QuotedText(QuoteSqlString(s) + rest, '\'') == Ok(Parsed(s, rest)) <==> rest == "" || rest[0] != '\''
  {
    EscapedIs(s);
    var text := QuoteSqlString(s) + rest;
    assert text[0] == '\'' && text[1..] == Escaped(s) + "'" + rest;
    if rest == "" || rest[0] != '\'' {
      EscapedBody(s, rest);
    } else {
      QuoteFollows(s, rest);
    }
  }

  /** A quote that follows is read into the string. */
  lemma {:induction false} QuoteFollows(s: string, rest: string)
    requires rest != "" && rest[0] == '\''
    ensures var r := QuotedBody(Escaped(s) + "'" + rest, '\'');
            r.Ok? ==> |r.value.rest| < |rest|
  {
    hide QuotedBody;
    if s == "" {
      TwoQuotes(rest);
    } else {
      QuoteFollows(s[1..], rest);
      EscapedStep(s[0], Escaped(s[1..]) + "'" + rest);
      var head := if s[0] == '\\' then "\\\\" else if s[0] == '\'' then "''" else [s[0]];
      assert Escaped(s) + "'" + rest == head + (Escaped(s[1..]) + "'" + rest);
    }
  }

  lemma TwoQuotes(rest: string)
    requires rest != "" && rest[0] == '\''
    ensures var r := QuotedBody("" + "'" + rest, '\'');
            r.Ok? ==> |r.value.rest| < |rest|
  {
    var t := "" + "'" + rest;
    assert t[0] == '\'' && t[1] == '\'' && t[2..] == rest[1..];
  }

  // ---------------------------------------------------------------------------
  // All literals of a parameter
  // ---------------------------------------------------------------------------

  /** The strings bound within a value, at any depth, in order; of an object, its text. */
  function Literals(v: Json): seq<string>
    decreases v, 1
  {
    match v
    case Str(s) => [s]
    case Object(text) => [text]
    case Array(items) => AllLiterals(items)
    case _ => []
  }

  function AllLiterals(items: seq<Json>): seq<string>
    decreases items, 0
  {
    if items == [] then [] else Literals(items[0]) + AllLiterals(items[1..])
  }

  /** Reads a text from left to right: at each quote, the quoted text that starts there. */
  function ReadLiterals(s: string): Result<seq<string>>
    decreases |s|
  {
    if s == "" then Ok([])
    else if s[0] == '\'' then
      var p :- QuotedText(s, '\'');
      var more :- ReadLiterals(p.rest);
      Ok([p.value] + more)
    else ReadLiterals(s[1..])
  }

  function Before(literals: seq<string>, r: Result<seq<string>>): Result<seq<string>> {
    match r
    case Ok(more) => Ok(literals + more)
    case Err(e) => Err(e)
  }

  predicate NoQuotes(s: string) {
    forall i :: 0 <= i < |s| ==> s[i] != '\''
  }

  lemma {:induction false} SkipText(s: string, rest: string)
    requires NoQuotes(s)
    ensures ReadLiterals(s + rest) == ReadLiterals(rest)
  {
    if s == "" {
      assert s + rest == rest;
    } else {
      assert (s + rest)[1..] == s[1..] + rest;
      SkipText(s[1..], rest);
    }
  }

  /** One literal, wherever it stands. */
  lemma {:induction false} ReadOne(s: string, rest: string)
    requires rest == "" || rest[0] != '\''
    ensures ReadLiterals(QuoteSqlString(s) + rest) == Before([s], ReadLiterals(rest))
  {
    hide QuotedText;
    QuotedSqlRoundTrip(s, rest);
    assert (QuoteSqlString(s) + rest)[0] == '\'';
  }

  lemma BeforeTwice(a: seq<string>, b: seq<string>, r: Result<seq<string>>)
    ensures Before(a, Before(b, r)) == Before(a + b, r) && Before([], r) == r
  {
    if r.Ok? {
      assert a + (b + r.value) == a + b + r.value && [] + r.value == r.value;
    }
  }

  /** A parameter never escapes its literals: whatever strings it holds, at any depth,
  reading its text gives exactly them, in order, and goes on with what follows. */
  lemma {:induction false} LiteralsReadBack(v: Json, rest: string)
    requires rest == "" || rest[0] != '\''
    ensures ReadLiterals(SqlText(v) + rest) == Before(Literals(v), ReadLiterals(rest))
    decreases v, 1
  {
    hide ReadLiterals, QuoteSqlString, SqlTexts;
    BeforeTwice([], [], ReadLiterals(rest));
    match v
    case Null => SkipText("NULL", rest);
    case Bool(b) => SkipText(SqlText(v), rest);
    case Number(digits) => SkipNumber(digits, rest);
    case Str(s) => ReadOne(s, rest);
    case Object(text) =>
      ReadOne(text, "::JSON" + rest);
      SkipText("::JSON", rest);
      assert QuoteSqlString(text) + "::JSON" + rest == QuoteSqlString(text) + ("::JSON" + rest);
    case Array(items) =>
      var tail := SqlTexts(items) + ("]" + rest);
      assert SqlText(v) + rest == "[" + tail;
      SkipText("[", tail);
      ItemsReadBack(items, "]" + rest);
      SkipText("]", rest);
  }

  lemma SkipNumber(digits: NumberText, rest: string)
    ensures ReadLiterals(digits + rest) == ReadLiterals(rest)
  {
    assert forall i :: 0 <= i < |digits| ==> IsNumberChar(digits[i]);
    SkipText(digits, rest);
  }

  lemma {:induction false} ItemsReadBack(items: seq<Json>, rest: string)
    requires rest == "" || rest[0] != '\''
    ensures ReadLiterals(SqlTexts(items) + rest) == Before(AllLiterals(items), ReadLiterals(rest))
    decreases items, 0
  {
    hide ReadLiterals, SqlText, Literals;
    BeforeTwice([], [], ReadLiterals(rest));
    if items == [] {
      assert SqlTexts(items) + rest == rest;
    } else if |items| == 1 {
      LiteralsReadBack(items[0], rest);
      assert items[1..] == [] && Literals(items[0]) + [] == Literals(items[0]);
    } else {
      var more := SqlTexts(items[1..]) + rest;
      assert SqlTexts(items) + rest == SqlText(items[0]) + (", " + more);
      LiteralsReadBack(items[0], ", " + more);
      SkipText(", ", more);
      ItemsReadBack(items[1..], rest);
      BeforeTwice(Literals(items[0]), AllLiterals(items[1..]), ReadLiterals(rest));
    }
  }

  // ---------------------------------------------------------------------------
  // A whole parameter read back
  // ---------------------------------------------------------------------------

  /** The length of the digits and signs at the front of `s`. */
  function NumberLength(s: string): (n: nat)
    ensures n <= |s|
  {
    if s != "" && IsNumberChar(s[0]) then 1 + NumberLength(s[1..]) else 0
  }

  /** Reads a value in SQL: a keyword, a number, a string, a string cast to JSON, or values
  in brackets. */
  function ReadSql(s: string): (r: Result<Parsed<Json>>)
    ensures r.Ok? ==> |r.value.rest| < |s|
    decreases |s|, 0
  {
    if "NULL" <= s then Ok(Parsed(Null, s[4..]))
    else if "TRUE" <= s then Ok(Parsed(Bool(true), s[4..]))
    else if "FALSE" <= s then Ok(Parsed(Bool(false), s[5..]))
    else if "[]" <= s then Ok(Parsed(Array([]), s[2..]))
    else if "[" <= s then
      var p :- ReadSqlItems(s[1..]);
      Ok(Parsed(Array(p.value), p.rest))
    else if "'" <= s then
      var p :- QuotedText(s, '\'');
      if "::JSON" <= p.rest then Ok(Parsed(Object(p.value), p.rest[6..])) else Ok(Parsed(Str(p.value), p.rest))
    else
      var n := NumberLength(s);
      NumberPrefix(s);
      if n == 0 then Err(Rejected) else Ok(Parsed(Number(s[..n]), s[n..]))
  }

  /** Reads values with commas between them, up to a closing bracket. */
  function ReadSqlItems(s: string): (r: Result<Parsed<seq<Json>>>)
    ensures r.Ok? ==> |r.value.rest| < |s|
    decreases |s|, 1
  {
    var first :- ReadSql(s);
    if ", " <= first.rest then
      var more :- ReadSqlItems(first.rest[2..]);
      Ok(Parsed([first.value] + more.value, more.rest))
    else if "]" <= first.rest then Ok(Parsed([first.value], first.rest[1..]))
    else Err(Rejected)
  }

  lemma {:induction false} NumberPrefix(s: string)
    ensures forall i :: 0 <= i < NumberLength(s) ==> IsNumberChar(s[i])
  {
    if s != "" && IsNumberChar(s[0]) {
      NumberPrefix(s[1..]);
      forall i | 0 <= i < NumberLength(s) ensures IsNumberChar(s[i]) {
        if i > 0 {
          assert s[i] == s[1..][i - 1];
        }
      }
    }
  }

  lemma {:induction false} NumberIs(digits: string, rest: string)
    requires forall i :: 0 <= i < |digits| ==> IsNumberChar(digits[i])
    requires rest == "" || !IsNumberChar(rest[0])
    ensures NumberLength(digits + rest) == |digits|
  {
    if digits == "" {
      assert digits + rest == rest;
    } else {
      assert (digits + rest)[1..] == digits[1..] + rest;
      NumberIs(digits[1..], rest);
    }
  }

  /** What follows can neither lengthen a number or a string nor cast it. */
  predicate Follows(rest: string) {
    rest != "" ==> rest[0] != '\'' && rest[0] != ':' && !IsNumberChar(rest[0])
  }

  /** Whatever JSON value is bound, its text is SQL for that very value, and ends where it
  ends. */
  lemma {:induction false} SqlRoundTrip(v: Json, rest: string)
    requires Follows(rest)
    ensures ReadSql(SqlText(v) + rest) == Ok(Parsed(v, rest))
    decreases v, 1
  {
    hide SqlTexts, QuoteSqlString, NumberLength, QuotedText;
    match v
    case Null => assert ("NULL" + rest)[4..] == rest;
    case Bool(b) => KeywordRead(b, rest);
    case Number(digits) => NumberRead(digits, rest);
    case Str(s) => StringRead(s, rest);
    case Object(text) => ObjectRead(text, rest);
    case Array(items) =>
      if items == [] {
        EmptyArrayRead(rest);
      } else {
        ItemsRoundTrip(items, rest);
        ArrayRead(items, rest);
      }
  }

  lemma KeywordRead(b: bool, rest: string)
    ensures ReadSql((if b then "TRUE" else "FALSE") + rest) == Ok(Parsed(Bool(b), rest))
  {
    var word := if b then "TRUE" else "FALSE";
    assert (word + rest)[0] == word[0] && (word + rest)[|word|..] == rest;
  }

  lemma NumberRead(digits: NumberText, rest: string)
    requires Follows(rest)
    ensures ReadSql(digits + rest) == Ok(Parsed(Number(digits), rest))
  {
    hide NumberLength;
    var s := digits + rest;
    assert forall i :: 0 <= i < |digits| ==> IsNumberChar(digits[i]);
    NumberIs(digits, rest);
    assert IsNumberChar(s[0]) && s[..|digits|] == digits && s[|digits|..] == rest;
  }

  lemma StringRead(s: string, rest: string)
    requires Follows(rest)
    ensures ReadSql(QuoteSqlString(s) + rest) == Ok(Parsed(Str(s), rest))
  {
    hide QuotedText;
    QuotedSqlRoundTrip(s, rest);
    assert (QuoteSqlString(s) + rest)[0] == '\'';
  }

  lemma ObjectRead(text: string, rest: string)
    ensures ReadSql(QuoteSqlString(text) + "::JSON" + rest) == Ok(Parsed(Object(text), rest))
  {
    hide QuotedText;
    var cast := "::JSON" + rest;
    QuotedSqlRoundTrip(text, cast);
    assert QuoteSqlString(text) + "::JSON" + rest == QuoteSqlString(text) + cast;
    assert (QuoteSqlString(text) + cast)[0] == '\'' && cast[6..] == rest;
  }

  lemma EmptyArrayRead(rest: string)
    ensures ReadSql(SqlText(Array([])) + rest) == Ok(Parsed(Array([]), rest))
  {
    var s := "[]" + rest;
    assert SqlText(Array([])) + rest == s;
    assert s[0] == '[' && s[1] == ']' && s[2..] == rest && s[..2] == "[]";
  }

  lemma ArrayRead(items: seq<Json>, rest: string)
    requires items != [] && ReadSqlItems(SqlTexts(items) + ("]" + rest)) == Ok(Parsed(items, rest))
    ensures ReadSql(SqlText(Array(items)) + rest) == Ok(Parsed(Array(items), rest))
  {
    hide SqlTexts, ReadSqlItems;
    var inner := SqlTexts(items) + ("]" + rest);
    var s := SqlText(Array(items)) + rest;
    assert s == "[" + inner && s[1..] == inner;
    TextsHead(items);
    assert s[0] == '[' && s[1] == inner[0] != ']' && s[..1] == "[";
  }

  lemma {:induction false} TextHead(v: Json)
    ensures SqlText(v)[0] != ']'
  {
    if v.Number? {
      assert IsNumberChar(v.digits[0]);
    }
  }

  lemma {:induction false} TextsHead(items: seq<Json>)
    requires items != []
    ensures SqlTexts(items) != "" && SqlTexts(items)[0] != ']'
  {
    hide SqlText;
    TextHead(items[0]);
  }

  lemma {:induction false} ItemsRoundTrip(items: seq<Json>, rest: string)
    requires items != []
    ensures ReadSqlItems(SqlTexts(items) + ("]" + rest)) == Ok(Parsed(items, rest))
    decreases items, 0
  {
    hide ReadSql, SqlText;
    if |items| == 1 {
      SqlRoundTrip(items[0], "]" + rest);
      assert ("]" + rest)[1..] == rest && [items[0]] == items;
    } else {
      var more := SqlTexts(items[1..]) + ("]" + rest);
      assert SqlTexts(items) + ("]" + rest) == SqlText(items[0]) + (", " + more);
      SqlRoundTrip(items[0], ", " + more);
      ItemsRoundTrip(items[1..], rest);
      assert (", " + more)[2..] == more && [items[0]] + items[1..] == items;
    }
  }
}
