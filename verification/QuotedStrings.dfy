/** When a string that the writer quotes is the string that the reader gets back.

The writer puts a backslash before a double quote and leaves backslashes alone;
the reader takes `\\` for one backslash and keeps the backslash of `\"`. */
module QuotedStrings {
  import opened Results
  import opened Cursors
  import opened ValueText

  lemma {:induction false} PlainIsSafe(s: string)
    requires forall i :: 0 <= i < |s| ==> s[i] != '"' && s[i] != '\\'
    ensures QuoteSafe(s)
  {
    if s != "" {
      PlainIsSafe(s[1..]);
    }
  }

  /** The written string from its opening quote on, followed by `rest`. */
  function Written(s: string, rest: string): string {
    Escaped(s, '"') + ("\"" + rest)
  }

  function Body(s: string, rest: string): Result<Parsed<string>> {
    QuotedBody(Written(s, rest), '"')
  }

  /** What follows a value is no quote. */
  predicate NoQuote(rest: string) {
    rest == "" || rest[0] != '"'
  }

  /** The reader got back `s`. */
  predicate Gives(r: Result<Parsed<string>>, s: string) {
    r.Ok? && r.value.value == s
  }

  lemma BodyEnd(rest: string)
    requires NoQuote(rest)
    ensures Body("", rest) == Ok(Parsed("", rest))
  {
    assert Written("", rest) == "\"" + rest;
    assert ("\"" + rest)[1..] == rest;
  }

  lemma BodyOfPlain(s: string, rest: string)
    requires s != "" && s[0] != '"' && s[0] != '\\'
    ensures Body(s, rest) == Prepend([s[0]], Body(s[1..], rest))
  {
    assert Written(s, rest) == [s[0]] + Written(s[1..], rest);
  }

  lemma BodyOfQuote(s: string, rest: string)
    requires s != "" && s[0] == '"'
    ensures Body(s, rest) == Prepend("\\\"", Body(s[1..], rest))
  {
    assert Written(s, rest) == "\\\"" + Written(s[1..], rest);
    assert Written(s, rest)[2..] == Written(s[1..], rest);
  }

  lemma BodyOfPair(s: string, rest: string)
    requires |s| > 1 && s[0] == '\\' && s[1] != '"'
    ensures Body(s, rest) == Prepend(Unescape(s[1]), Body(s[2..], rest))
  {
    assert Escaped(s, '"') == [s[0]] + Escaped(s[1..], '"');
    assert Escaped(s[1..], '"') == [s[1]] + Escaped(s[1..][1..], '"');
    assert s[1..][1..] == s[2..];
    assert Written(s, rest) == [s[0], s[1]] + Written(s[2..], rest);
    assert Written(s, rest)[2..] == Written(s[2..], rest);
  }

  /** A backslash at the end takes the closing quote with it. */
  lemma BodyOfTrailing(rest: string)
    ensures Body("\\", rest) == Prepend("\\\"", QuotedBody(rest, '"'))
  {
    assert Escaped("\\", '"') == "\\" + Escaped("\\"[1..], '"');
    assert Written("\\", rest) == "\\\"" + rest;
    assert ("\\\"" + rest)[2..] == rest;
  }

  /** A backslash before a quote: the backslashes pair up and the quote ends the
  text, or is taken for a doubled one. */
  lemma BodyOfClosing(s: string, rest: string)
    requires |s| > 1 && s[0] == '\\' && s[1] == '"'
    ensures Gives(Body(s, rest), "\\") || Body(s, rest) == Prepend("\\\"", QuotedBody(rest, '"'))
    ensures |s| > 2 ==> Gives(Body(s, rest), "\\")
  {
    var w := Written(s[2..], rest);
    ClosingText(s, rest);
    BodyOfSlashes("\"" + w);
    assert ("\"" + w)[1..] == w;
    if |s| > 2 {
      assert "\\" + "" == "\\";
    } else {
      ClosingDoubled(rest);
      PrependTwice("\\", "\"", QuotedBody(rest, '"'));
      assert "\\" + "\"" == "\\\"";
    }
  }

  lemma ClosingText(s: string, rest: string)
    requires |s| > 1 && s[0] == '\\' && s[1] == '"'
    ensures var w := Written(s[2..], rest);
            && Written(s, rest) == "\\\\" + ("\"" + w)
            && (|s| > 2 ==> w[0] != '"')
            && (|s| == 2 ==> w == "\"" + rest)
  {
    assert Escaped(s, '"') == [s[0]] + Escaped(s[1..], '"');
    assert Escaped(s[1..], '"') == "\\\"" + Escaped(s[1..][1..], '"');
    assert s[1..][1..] == s[2..];
  }

  lemma BodyOfSlashes(t: string)
    ensures QuotedBody("\\\\" + t, '"') == Prepend("\\", QuotedBody(t, '"'))
  {
    assert ("\\\\" + t)[2..] == t;
  }

  lemma ClosingDoubled(rest: string)
    ensures QuotedBody("\"" + ("\"" + rest), '"') == Prepend("\"", QuotedBody(rest, '"'))
  {
    assert ("\"" + ("\"" + rest))[2..] == rest;
  }

  /** Reading beyond the closing quote gives at least one character more. */
  lemma BeyondQuote(rest: string)
    requires NoQuote(rest)
    ensures !Gives(QuotedBody(rest, '"'), "")
  {
    if rest != "" && rest[0] == '\\' && |rest| > 1 {
      assert Unescape(rest[1]) != "";
    }
  }

  function Slashes(k: nat): (b: string)
    ensures |b| == k && forall i :: 0 <= i < k ==> b[i] == '\\'
  {
    seq(k, _ => '\\')
  }

  /** Once two backslashes are owed, they are never made up for. */
  lemma {:induction false} NeverTwoBehind(w: string, k: nat, rest: string)
    requires NoQuote(rest) && k >= 2
    ensures !Gives(Body(w, rest), Slashes(k) + w)
    decreases |w|
  {
    hide Body;
    var owed := Slashes(k) + w;
    assert owed[0] == '\\' && owed[1] == '\\';
    if w == "" {
      BodyEnd(rest);
    } else if w[0] == '"' {
      BodyOfQuote(w, rest);
    } else if w[0] != '\\' {
      BodyOfPlain(w, rest);
    } else if |w| == 1 {
      assert w == "\\";
      BodyOfTrailing(rest);
    } else if w[1] == '"' {
      BodyOfClosing(w, rest);
    } else {
      BodyOfPair(w, rest);
      if w[1] == '\\' {
        NeverTwoBehind(w[2..], k + 1, rest);
        assert owed[1..] == Slashes(k + 1) + w[2..];
        PrependGives("\\", Body(w[2..], rest), owed);
      }
    }
  }

  lemma PrependGives(p: string, r: Result<Parsed<string>>, s: string)
    requires |p| <= |s| && s[..|p|] == p
    ensures Gives(Prepend(p, r), s) <==> Gives(r, s[|p|..])
  {
    if r.Ok? {
      assert (p + r.value.value)[|p|..] == r.value.value;
      assert p + s[|p|..] == s;
    }
  }

  /** One backslash owed is made up for exactly by a quote. */
  lemma OneBehind(w: string, rest: string)
    requires NoQuote(rest)
    ensures Gives(Body(w, rest), "\\" + w) <==> w != "" && w[0] == '"' && Gives(Body(w[1..], rest), w[1..])
    ensures w != "" && w[0] == '"' ==> Body(w, rest) == Prepend("\\\"", Body(w[1..], rest))
  {
    hide Body;
    var owed := "\\" + w;
    assert owed[0] == '\\';
    if w == "" {
      BodyEnd(rest);
    } else if w[0] == '"' {
      BodyOfQuote(w, rest);
      PrependGives("\\\"", Body(w[1..], rest), owed);
      assert owed[2..] == w[1..];
    } else if w[0] != '\\' {
      BodyOfPlain(w, rest);
    } else if |w| == 1 {
      assert w == "\\";
      BodyOfTrailing(rest);
    } else if w[1] == '"' {
      BodyOfClosing(w, rest);
    } else {
      BodyOfPair(w, rest);
      if w[1] == '\\' {
        NeverTwoBehind(w[2..], 2, rest);
        assert owed[1..] == Slashes(2) + w[2..];
        PrependGives("\\", Body(w[2..], rest), owed);
      }
    }
  }

  /** The reader undoes the quoting of exactly the safe strings. For the others it
  never gives the string back, whatever follows. */
  lemma {:induction false} BodyRoundTrip(s: string, rest: string)
    requires NoQuote(rest)
    ensures QuoteSafe(s) ==> Body(s, rest) == Ok(Parsed(s, rest))
    ensures !QuoteSafe(s) ==> !Gives(Body(s, rest), s)
    decreases |s|
  {
    hide Body;
    if s == "" {
      BodyEnd(rest);
    } else if s[0] == '"' {
      BodyOfQuote(s, rest);
    } else if s[0] != '\\' {
      BodyOfPlain(s, rest);
      BodyRoundTrip(s[1..], rest);
      PrependGives([s[0]], Body(s[1..], rest), s);
      assert [s[0]] + s[1..] == s;
    } else if |s| == 1 {
      assert s == "\\";
      BodyOfTrailing(rest);
    } else if s[1] == '"' {
      BodyOfClosing(s, rest);
      if |s| == 2 {
        BeyondQuote(rest);
        PrependGives("\\\"", QuotedBody(rest, '"'), s);
      }
    } else {
      BodyOfPair(s, rest);
      if s[1] == '\\' {
        DoubledSlash(s, rest);
      } else {
        BodyRoundTrip(s[2..], rest);
        if !IsEscape(s[1]) {
          PrependGives([s[0], s[1]], Body(s[2..], rest), s);
          assert [s[0], s[1]] + s[2..] == s;
        }
      }
    }
  }

  lemma DoubledSlash(s: string, rest: string)
    requires NoQuote(rest) && |s| > 1 && s[0] == s[1] == '\\'
    requires Body(s, rest) == Prepend("\\", Body(s[2..], rest))
    ensures QuoteSafe(s) ==> Body(s, rest) == Ok(Parsed(s, rest))
    ensures !QuoteSafe(s) ==> !Gives(Body(s, rest), s)
    decreases |s|, 0
  {
    hide Body;
    var w := s[2..];
    OneBehind(w, rest);
    assert s[1..] == "\\" + w;
    PrependGives("\\", Body(w, rest), s);
    if w != "" && w[0] == '"' {
      assert w[1..] == s[3..];
      BodyRoundTrip(s[3..], rest);
      assert "\\" + ("\\\"" + s[3..]) == s;
    }
  }

  /** A quoted string is read back, and what follows it left unread, exactly when
  the string is safe. */
  lemma StringRoundTrip(s: string, rest: string)
    requires NoQuote(rest)
    ensures QuoteSafe(s) ==> ReadString(StringText(s, false) + rest) == Ok(Parsed(s, rest))
    ensures !QuoteSafe(s) ==> !Gives(ReadString(StringText(s, false) + rest), s)
  {
    var text := StringText(s, false) + rest;
    assert text == "\"" + Written(s, rest);
    assert text[1..] == Written(s, rest);
    BodyRoundTrip(s, rest);
  }

  /** A double quote comes back with the backslash that it was given. */
  lemma QuoteComesBackEscaped(rest: string)
    requires NoQuote(rest)
    ensures ReadString(StringText("\"", false) + rest) == Ok(Parsed("\\\"", rest))
  {
    hide Body, QuotedBody;
    var text := StringText("\"", false) + rest;
    assert text == "\"" + Written("\"", rest) by {
      QuotedShape("\"", rest);
    }
    assert text[1..] == Written("\"", rest);
    assert "\""[1..] == "";
    BodyOfQuote("\"", rest);
    BodyEnd(rest);
    assert "\\\"" + "" == "\\\"";
    BodyIs("\"", rest);
  }

  lemma QuotedShape(s: string, rest: string)
    ensures StringText(s, false) + rest == "\"" + Written(s, rest)
  {
  }

  lemma BodyIs(s: string, rest: string)
    ensures Body(s, rest) == QuotedBody(Written(s, rest), '"')
  {
  }

  // ---------------------------------------------------------------------------
  // Strings that somebody else has escaped
  // ---------------------------------------------------------------------------

  /** A character in a text between quotes, escaped wherever that can be done. */
  function EscapeOf(c: char, quote: char): string {
    if c == quote then [quote, quote]
    else
      match c
      case '\n' => "\\n"
      case '\t' => "\\t"
      case '\r' => "\\r"
      case '\0' => "\\0"
      case '\'' => "\\'"
      case '\\' => "\\\\"
      case _ => [c]
  }

  function FullyEscaped(s: string, quote: char): string {
    if s == "" then "" else EscapeOf(s[0], quote) + FullyEscaped(s[1..], quote)
  }

  lemma {:induction false} EscapeRead(c: char, t: string, quote: char)
    requires quote == '"' || quote == '\''
    ensures QuotedBody(EscapeOf(c, quote) + t, quote) == Prepend([c], QuotedBody(t, quote))
  {
    hide QuotedBody;
    if c == quote {
      DoubledRead(t, quote);
    } else if |EscapeOf(c, quote)| == 2 {
      BackslashRead(EscapeOf(c, quote)[1], t, quote);
    } else {
      PlainRead(c, t, quote);
    }
  }

  lemma DoubledRead(t: string, quote: char)
    ensures QuotedBody([quote, quote] + t, quote) == Prepend([quote], QuotedBody(t, quote))
  {
    assert ([quote, quote] + t)[2..] == t;
  }

  lemma BackslashRead(c: char, t: string, quote: char)
    requires quote != '\\'
    ensures QuotedBody(['\\', c] + t, quote) == Prepend(Unescape(c), QuotedBody(t, quote))
  {
    hide Unescape;
    assert (['\\', c] + t)[2..] == t;
  }

  lemma PlainRead(c: char, t: string, quote: char)
    requires c != quote && c != '\\'
    ensures QuotedBody([c] + t, quote) == Prepend([c], QuotedBody(t, quote))
  {
    assert ([c] + t)[1..] == t;
  }

  /** Between quotes of either kind, with every escape that there is, any string is read. */
  lemma {:induction false} FullyEscapedBody(s: string, rest: string, quote: char)
    requires quote == '"' || quote == '\''
    requires rest == "" || rest[0] != quote
    ensures QuotedBody(FullyEscaped(s, quote) + ([quote] + rest), quote) == Ok(Parsed(s, rest))
  {
    hide QuotedBody, EscapeOf;
    if s == "" {
      assert "" + ([quote] + rest) == [quote] + rest;
      QuoteEnds(rest, quote);
    } else {
      var t := FullyEscaped(s[1..], quote) + ([quote] + rest);
      assert FullyEscaped(s, quote) + ([quote] + rest) == EscapeOf(s[0], quote) + t;
      EscapeRead(s[0], t, quote);
      FullyEscapedBody(s[1..], rest, quote);
      assert [s[0]] + s[1..] == s;
    }
  }

  lemma QuoteEnds(rest: string, quote: char)
    requires rest == "" || rest[0] != quote
    ensures QuotedBody([quote] + rest, quote) == Ok(Parsed("", rest))
  {
    assert ([quote] + rest)[1..] == rest;
  }

  lemma {:induction false} FullyEscapedRead(s: string, rest: string, quote: char)
    requires quote == '"' || quote == '\''
    requires rest == "" || rest[0] != quote
    ensures ReadString([quote] + FullyEscaped(s, quote) + [quote] + rest) == Ok(Parsed(s, rest))
  {
    hide QuotedBody, FullyEscaped;
    var body := FullyEscaped(s, quote) + ([quote] + rest);
    assert [quote] + FullyEscaped(s, quote) + [quote] + rest == [quote] + body;
    assert ([quote] + body)[1..] == body;
    FullyEscapedBody(s, rest, quote);
  }

  /** A backslash in front of any other character stays where it is. */
  lemma {:induction false} UnknownEscapeKept(c: char, t: string, quote: char)
    requires quote == '"' || quote == '\''
    requires c != 'n' && c != 't' && c != 'r' && c != '0' && c != '\'' && c != '\\'
    ensures QuotedBody(['\\', c] + t, quote) == Prepend(['\\', c], QuotedBody(t, quote))
  {
    BackslashRead(c, t, quote);
  }
}
