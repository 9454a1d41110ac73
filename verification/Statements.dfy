/** The statement splitter of the command line (`cli/src/sql_parser.rs`).

The tokenizer is a parameter: for each text it gives tokens, with spans that are not
empty and lie in the text, and errors. */
module Statements {
  import opened Results
  import opened CommentScanner

  datatype Kind = Ident | Backslash | OtherKind

  datatype Token = Token(kind: Kind, start: nat, end: nat) | Invalid(error: string)

  type Tokenizer = string -> seq<Token>

  predicate InBounds(s: string, tokens: seq<Token>) {
    forall i :: 0 <= i < |tokens| && tokens[i].Token? ==> tokens[i].start < tokens[i].end <= |s|
  }

  ghost predicate Lawful(tokenize: Tokenizer) {
    forall s :: InBounds(s, tokenize(s))
  }

  datatype Parser = Parser(delimiter: char, multiLine: bool, isRepl: bool)

  /** A statement as cut off, up to its end token, and whether all its tokens were valid. */
  datatype Piece = Piece(text: string, valid: bool)

  datatype Parsing = Parsing(pieces: seq<Piece>, remaining: string, err: string)

  // ---------------------------------------------------------------------------
  // Trimming
  // ---------------------------------------------------------------------------

  predicate IsSpace(c: char) {
    c in " \t\n\r" || c == 0x0B as char || c == 0x0C as char
  }

  lemma SpacesAre(c: char)
    ensures IsSpace(c) <==> c == ' ' || 9 <= c as int <= 13
  {
  }

  function TrimStart(s: string): string {
    if s != "" && IsSpace(s[0]) then TrimStart(s[1..]) else s
  }

  function TrimEnd(s: string): string {
    if s != "" && IsSpace(s[|s| - 1]) then TrimEnd(s[..|s| - 1]) else s
  }

  function Trim(s: string): string {
    TrimEnd(TrimStart(s))
  }

  function TrimEndMatches(s: string, c: char): string {
    if s != "" && s[|s| - 1] == c then TrimEndMatches(s[..|s| - 1], c) else s
  }

  // ---------------------------------------------------------------------------
  // Splitting
  // ---------------------------------------------------------------------------

  /** A delimiter; `G` after a backslash, in the interactive mode; or, in any mode, a token
  that ends with a backslash and `G`. */
  predicate EndsQuery(p: Parser, text: string, kind: Kind, afterBackslash: bool) {
    || text == [p.delimiter]
    || (p.isRepl && afterBackslash && kind == Ident && text == "G")
    || (|text| >= 2 && text[|text| - 2..] == "\\G")
  }

  lemma EndsQueryIff(p: Parser, text: string, kind: Kind, afterBackslash: bool)
    ensures EndsQuery(p, text, kind, afterBackslash) <==>
            || (|text| == 1 && text[0] == p.delimiter)
            || (p.isRepl && afterBackslash && kind == Ident && |text| == 1 && text[0] == 'G')
            || exists front :: text == front + "\\G"
  {
    if |text| >= 2 && text[|text| - 2..] == "\\G" {
      assert text == text[..|text| - 2] + "\\G";
    }
    if front :| text == front + "\\G" {
      assert text[|text| - 2..] == "\\G";
    }
    if |text| == 1 {
      assert text == [text[0]];
    }
  }

  /** Where the first statement of `s` ends, if it does, whether its tokens were valid, and
  the last error met. */
  datatype Cut = Cut(end: Option<nat>, valid: bool, err: string)

  function FindCut(p: Parser, s: string, tokens: seq<Token>, afterBackslash: bool, valid: bool, err: string): (r: Cut)
    requires InBounds(s, tokens)
    ensures r.end.Some? ==> 0 < r.end.value <= |s|
    decreases |tokens|
  {
    if tokens == [] then Cut(None, valid, err)
    else
      match tokens[0]
      case Invalid(e) => FindCut(p, s, tokens[1..], afterBackslash, false, e)
      case Token(kind, start, end) =>
        if EndsQuery(p, s[start..end], kind, afterBackslash) then Cut(Some(end), valid, err)
        else FindCut(p, s, tokens[1..], kind == Backslash, valid, err)
  }

  function FirstCut(p: Parser, tokenize: Tokenizer, s: string, err: string): (r: Cut)
    requires InBounds(s, tokenize(s))
    ensures r.end.Some? ==> 0 < r.end.value <= |s|
  {
    FindCut(p, s, tokenize(s), false, true, err)
  }

  ghost function Split(p: Parser, tokenize: Tokenizer, s: string, err: string): Parsing
    requires Lawful(tokenize)
    decreases |s|
  {
    var cut := FirstCut(p, tokenize, s, err);
    match cut.end
    case None => Parsing([], s, cut.err)
    case Some(end) =>
      var more := Split(p, tokenize, s[end..], cut.err);
      more.(pieces := [Piece(s[..end], cut.valid)] + more.pieces)
  }

  /** What a piece gives: nothing when invalid or when only a delimiter. */
  function Statement(p: Parser, piece: Piece): seq<string> {
    if piece.valid && Trim(piece.text) != [p.delimiter] then [Trim(TrimEndMatches(piece.text, p.delimiter))] else []
  }

  function StatementsOf(p: Parser, pieces: seq<Piece>): seq<string> {
    if pieces == [] then [] else Statement(p, pieces[0]) + StatementsOf(p, pieces[1..])
  }

  /** The text without the tail that an open comment starts, split, and the tail put back. */
  ghost function Parse(p: Parser, tokenize: Tokenizer, query: string): Parsing
    requires Lawful(tokenize)
  {
    var (toParse, tail) := WithoutTail(query);
    var parsed := Split(p, tokenize, toParse, "");
    parsed.(remaining := parsed.remaining + tail)
  }

  function WithoutTail(query: string): (r: (string, string))
    ensures r.0 + r.1 == query
  {
    match UnclosedStart(query)
    case Some(pos) => if pos <= |query| then (query[..pos], query[pos..]) else (query, "")
    case None => (query, "")
  }

  // ---------------------------------------------------------------------------
  // What a parse keeps
  // ---------------------------------------------------------------------------

  function Texts(pieces: seq<Piece>): string {
    if pieces == [] then "" else pieces[0].text + Texts(pieces[1..])
  }

  /** No character is lost and none is made up. */
  lemma {:induction false} SplitConserves(p: Parser, tokenize: Tokenizer, s: string, err: string)
    requires Lawful(tokenize)
    ensures var parsed := Split(p, tokenize, s, err);
            Texts(parsed.pieces) + parsed.remaining == s
    decreases |s|
  {
    hide FirstCut;
    var cut := FirstCut(p, tokenize, s, err);
    match cut.end
    case None =>
      assert "" + s == s;
    case Some(end) =>
      SplitConserves(p, tokenize, s[end..], cut.err);
      var more := Split(p, tokenize, s[end..], cut.err);
      assert ([Piece(s[..end], cut.valid)] + more.pieces)[1..] == more.pieces;
      Rejoin(s, end, Texts(more.pieces), more.remaining);
  }

  lemma {:induction false} Rejoin(s: string, end: nat, a: string, b: string)
    requires end <= |s| && a + b == s[end..]
    ensures s[..end] + a + b == s
  {
    assert s[..end] + a + b == s[..end] + (a + b);
  }

  /** Nothing that ends is left over, whatever error is remembered. */
  lemma {:induction false} SplitSettles(p: Parser, tokenize: Tokenizer, s: string, err: string, err': string)
    requires Lawful(tokenize)
    ensures FirstCut(p, tokenize, Split(p, tokenize, s, err).remaining, err').end == None
    decreases |s|
  {
    hide FindCut;
    var cut := FirstCut(p, tokenize, s, err);
    match cut.end
    case None => SameCut(p, s, tokenize(s), false, true, err, err');
    case Some(end) => SplitSettles(p, tokenize, s[end..], cut.err, err');
  }

  /** The error met before does not change where a statement ends. */
  lemma {:induction false} SameCut(p: Parser, s: string, tokens: seq<Token>, afterBackslash: bool, valid: bool,
                                   err: string, err': string)
    requires InBounds(s, tokens)
    ensures FindCut(p, s, tokens, afterBackslash, valid, err).end
            == FindCut(p, s, tokens, afterBackslash, valid, err').end
    decreases |tokens|
  {
    if tokens != [] {
      match tokens[0]
      case Invalid(e) =>
      case Token(kind, start, end) =>
        if !EndsQuery(p, s[start..end], kind, afterBackslash) {
          SameCut(p, s, tokens[1..], kind == Backslash, valid, err, err');
        }
    }
  }

  /** The pieces and the remainder are the query, comment tail included, and the open
  comment is never cut: it is a suffix of the remainder. */
  lemma {:induction false} ParseConserves(p: Parser, tokenize: Tokenizer, query: string)
    requires Lawful(tokenize)
    ensures var parsed := Parse(p, tokenize, query);
            && Texts(parsed.pieces) + parsed.remaining == query
            && (forall pos :: UnclosedStart(query) == Some(pos) ==>
                  && pos <= |query| && |Texts(parsed.pieces)| <= pos
                  && parsed.remaining[pos - |Texts(parsed.pieces)|..] == query[pos..])
  {
    hide UnclosedStart, WithoutTail, Texts, Split, Lawful;
    var (toParse, tail) := WithoutTail(query);
    SplitConserves(p, tokenize, toParse, "");
    var parsed := Split(p, tokenize, toParse, "");
    Regroup(Texts(parsed.pieces), parsed.remaining, tail);
    forall pos | UnclosedStart(query) == Some(pos)
      ensures pos <= |query| && |Texts(parsed.pieces)| <= pos
              && (parsed.remaining + tail)[pos - |Texts(parsed.pieces)|..] == query[pos..]
    {
      TailIs(query, pos);
      assert (parsed.remaining + tail)[|parsed.remaining|..] == tail;
    }
  }

  lemma TailIs(query: string, pos: nat)
    requires UnclosedStart(query) == Some(pos)
    ensures pos <= |query| && WithoutTail(query) == (query[..pos], query[pos..])
  {
    hide Scan, NeverCloses, OpensAt;
    SafeCut(query, pos);
  }

  /** The last valid token before the i-th is a backslash; `before` tells of what came
  before all of them. */
  predicate AfterBackslash(tokens: seq<Token>, i: nat, before: bool)
    requires i <= |tokens|
  {
    if i == 0 then before
    else
      match tokens[i - 1]
      case Invalid(_) => AfterBackslash(tokens, i - 1, before)
      case Token(kind, _, _) => kind == Backslash
  }

  /** The i-th token ends a statement. */
  predicate EndsAt(p: Parser, s: string, tokens: seq<Token>, i: nat, before: bool)
    requires i < |tokens| && InBounds(s, tokens)
  {
    tokens[i].Token? &&
    EndsQuery(p, s[tokens[i].start..tokens[i].end], tokens[i].kind, AfterBackslash(tokens, i, before))
  }

  /** A cut is behind the first token that ends a statement, and the statement is valid
  exactly when all tokens up to there are; without such a token there is no cut. */
  ghost predicate CutsFirst(p: Parser, s: string, tokens: seq<Token>, before: bool, cut: Cut)
    requires InBounds(s, tokens)
  {
    match cut.end
    case None => forall i :: 0 <= i < |tokens| ==> !EndsAt(p, s, tokens, i, before)
    case Some(end) =>
      exists i :: 0 <= i < |tokens| && EndsAt(p, s, tokens, i, before) && tokens[i].end == end
                  && (forall j :: 0 <= j < i ==> !EndsAt(p, s, tokens, j, before))
                  && (cut.valid <==> forall j :: 0 <= j < i ==> tokens[j].Token?)
  }

  lemma {:induction false} AfterBackslashTail(tokens: seq<Token>, i: nat, before: bool)
    requires 0 < i <= |tokens|
    ensures AfterBackslash(tokens, i, before) ==
            AfterBackslash(tokens[1..], i - 1, if tokens[0].Token? then tokens[0].kind == Backslash else before)
  {
    if i > 1 && tokens[i - 1].Invalid? {
      AfterBackslashTail(tokens, i - 1, before);
    }
  }

  /** From the second token on, a statement ends where it ends among the tokens behind
  the first. */
  lemma {:induction false} EndsAtTail(p: Parser, s: string, tokens: seq<Token>, before: bool)
    requires tokens != [] && InBounds(s, tokens)
    ensures InBounds(s, tokens[1..])
    ensures forall i :: 0 < i < |tokens| ==>
              EndsAt(p, s, tokens, i, before) ==
              EndsAt(p, s, tokens[1..], i - 1, if tokens[0].Token? then tokens[0].kind == Backslash else before)
  {
    hide EndsQuery, AfterBackslash;
    forall i | 0 < i < |tokens|
      ensures EndsAt(p, s, tokens, i, before) ==
              EndsAt(p, s, tokens[1..], i - 1, if tokens[0].Token? then tokens[0].kind == Backslash else before)
    {
      AfterBackslashTail(tokens, i, before);
    }
  }

  lemma {:induction false} CutsAtFirst(p: Parser, s: string, tokens: seq<Token>, before: bool, err: string)
    requires InBounds(s, tokens)
    ensures CutsFirst(p, s, tokens, before, FindCut(p, s, tokens, before, true, err))
    decreases |tokens|
  {
    if tokens != [] {
      EndsAtTail(p, s, tokens, before);
      match tokens[0]
      case Invalid(e) =>
        CutsAtFirst(p, s, tokens[1..], before, e);
        CutInvalid(p, s, tokens[1..], before, e);
        CutTail(p, s, tokens, before,
                FindCut(p, s, tokens[1..], before, true, e), FindCut(p, s, tokens[1..], before, false, e));
      case Token(kind, start, end) =>
        if EndsQuery(p, s[start..end], kind, before) {
          assert EndsAt(p, s, tokens, 0, before);
        } else {
          var more := FindCut(p, s, tokens[1..], kind == Backslash, true, err);
          CutsAtFirst(p, s, tokens[1..], kind == Backslash, err);
          CutTail(p, s, tokens, before, more, more);
        }
    }
  }

  /** Once a token was invalid, only the validity of the cut changes. */
  lemma {:induction false} CutInvalid(p: Parser, s: string, tokens: seq<Token>, before: bool, err: string)
    requires InBounds(s, tokens)
    ensures FindCut(p, s, tokens, before, false, err) == FindCut(p, s, tokens, before, true, err).(valid := false)
    decreases |tokens|
  {
    if tokens != [] {
      match tokens[0]
      case Invalid(e) => CutInvalid(p, s, tokens[1..], before, e);
      case Token(kind, start, end) =>
        if !EndsQuery(p, s[start..end], kind, before) {
          CutInvalid(p, s, tokens[1..], kind == Backslash, err);
        }
    }
  }

  /** The cut among the tokens behind the first, when that one ends nothing. */
  lemma {:induction false} CutTail(p: Parser, s: string, tokens: seq<Token>, before: bool, more: Cut, cut: Cut)
    requires tokens != [] && InBounds(s, tokens) && InBounds(s, tokens[1..]) && !EndsAt(p, s, tokens, 0, before)
    requires var next := if tokens[0].Token? then tokens[0].kind == Backslash else before;
             CutsFirst(p, s, tokens[1..], next, more)
    requires cut == if tokens[0].Token? then more else more.(valid := false)
    ensures CutsFirst(p, s, tokens, before, cut)
  {
    hide EndsQuery, AfterBackslash;
    var next := if tokens[0].Token? then tokens[0].kind == Backslash else before;
    EndsAtTail(p, s, tokens, before);
    match more.end
    case None =>
    case Some(end) =>
      var i :| 0 <= i < |tokens[1..]| && EndsAt(p, s, tokens[1..], i, next) && tokens[1..][i].end == end
               && (forall j :: 0 <= j < i ==> !EndsAt(p, s, tokens[1..], j, next))
               && (more.valid <==> forall j :: 0 <= j < i ==> tokens[1..][j].Token?);
      assert EndsAt(p, s, tokens, i + 1, before);
      assert forall j :: 0 < j < i + 1 ==> tokens[j] == tokens[1..][j - 1];
  }

  /** The first cut of a text, for any lawful tokenizer. */
  lemma {:induction false} FirstCutIsFirst(p: Parser, tokenize: Tokenizer, s: string, err: string)
    requires Lawful(tokenize)
    ensures InBounds(s, tokenize(s)) && CutsFirst(p, s, tokenize(s), false, FirstCut(p, tokenize, s, err))
  {
    CutsAtFirst(p, s, tokenize(s), false, err);
  }

  /** The errors of the tokens that are not valid. */
  function Errors(tokens: seq<Token>): seq<string> {
    if tokens == [] then [] else (if tokens[0].Invalid? then [tokens[0].error] else []) + Errors(tokens[1..])
  }

  function LastOr(errors: seq<string>, err: string): string {
    if errors == [] then err else errors[|errors| - 1]
  }

  lemma NoErrors()
    ensures Errors([]) == []
  {
  }

  lemma ErrorsFirst(tokens: seq<Token>, n: nat)
    requires n < |tokens|
    ensures Errors(tokens[..n + 1])
            == (if tokens[0].Invalid? then [tokens[0].error] else []) + Errors(tokens[1..][..n])
    ensures tokens[1..][..0] == []
  {
    assert tokens[..n + 1][1..] == tokens[1..][..n];
  }

  /** How many tokens of `s` are read until one ends a statement, that one included. */
  function TokensRead(p: Parser, s: string, tokens: seq<Token>, before: bool): (n: nat)
    requires InBounds(s, tokens)
    ensures n <= |tokens|
    decreases |tokens|
  {
    if tokens == [] then 0
    else if EndsAt(p, s, tokens, 0, before) then 1
    else 1 + TokensRead(p, s, tokens[1..], if tokens[0].Token? then tokens[0].kind == Backslash else before)
  }

  lemma {:induction false} CutError(p: Parser, s: string, tokens: seq<Token>, before: bool, valid: bool, err: string)
    requires InBounds(s, tokens)
    ensures FindCut(p, s, tokens, before, valid, err).err
            == LastOr(Errors(tokens[..TokensRead(p, s, tokens, before)]), err)
    decreases |tokens|
  {
    hide EndsQuery, Errors;
    if tokens == [] {
      NoErrors();
    } else {
      var next := if tokens[0].Token? then tokens[0].kind == Backslash else before;
      var n := TokensRead(p, s, tokens[1..], next);
      NoErrors();
      ErrorsFirst(tokens, n);
      ErrorsFirst(tokens, 0);
      match tokens[0]
      case Invalid(e) => CutError(p, s, tokens[1..], next, false, e);
      case Token(_, _, _) =>
        if !EndsAt(p, s, tokens, 0, before) {
          CutError(p, s, tokens[1..], next, valid, err);
        }
    }
  }

  /** The errors met in all the tokens read, statement after statement. */
  ghost function ErrorsMet(p: Parser, tokenize: Tokenizer, s: string): seq<string>
    requires Lawful(tokenize)
    decreases |s|
  {
    var tokens := tokenize(s);
    assert InBounds(s, tokens);
    Errors(tokens[..TokensRead(p, s, tokens, false)])
    + match FirstCut(p, tokenize, s, "").end
      case None => []
      case Some(end) => ErrorsMet(p, tokenize, s[end..])
  }

  /** The error reported is the last one met, wherever the statements are cut. */
  lemma {:induction false} SplitReports(p: Parser, tokenize: Tokenizer, s: string, err: string)
    requires Lawful(tokenize)
    ensures Split(p, tokenize, s, err).err == LastOr(ErrorsMet(p, tokenize, s), err)
    decreases |s|
  {
    hide FindCut, TokensRead, Errors;
    var tokens := tokenize(s);
    assert InBounds(s, tokens);
    CutError(p, s, tokens, false, true, err);
    SameCut(p, s, tokens, false, true, err, "");
    var cut := FirstCut(p, tokenize, s, err);
    if cut.end.Some? {
      SplitReports(p, tokenize, s[cut.end.value..], cut.err);
    }
  }

  /** A token that ends with a backslash and `G` ends a statement outside the interactive
  mode too. */
  lemma SlashGAlwaysEnds(delimiter: char, multiLine: bool)
    ensures var p := Parser(delimiter, multiLine, false);
            var tokens := [Token(OtherKind, 0, 3)];
            InBounds("a\\G", tokens) && FindCut(p, "a\\G", tokens, false, true, "") == Cut(Some(3), true, "")
  {
    assert "a\\G"[0..3] == "a\\G" && "a\\G"[1..] == "\\G";
  }

  // ---------------------------------------------------------------------------
  // What a statement is
  // ---------------------------------------------------------------------------

  predicate Spaces(s: string) {
    forall i :: 0 <= i < |s| ==> IsSpace(s[i])
  }

  /** Nothing but `c`. */
  predicate AllOf(s: string, c: char) {
    forall i :: 0 <= i < |s| ==> s[i] == c
  }

  lemma Regroup(a: string, b: string, c: string)
    ensures a + b + c == a + (b + c)
  {
  }

  lemma {:induction false} TrimStartIs(s: string) returns (lead: string)
    ensures s == lead + TrimStart(s) && Spaces(lead)
    ensures TrimStart(s) != "" ==> !IsSpace(TrimStart(s)[0])
  {
    if s != "" && IsSpace(s[0]) {
      lead := TrimStartIs(s[1..]);
      Regroup([s[0]], lead, TrimStart(s[1..]));
      assert s == [s[0]] + s[1..];
      lead := [s[0]] + lead;
    } else {
      lead := "";
    }
  }

  lemma {:induction false} TrimEndIs(s: string) returns (tail: string)
    ensures s == TrimEnd(s) + tail && Spaces(tail)
    ensures TrimEnd(s) != "" ==> !IsSpace(TrimEnd(s)[|TrimEnd(s)| - 1]) && TrimEnd(s)[0] == s[0]
  {
    if s != "" && IsSpace(s[|s| - 1]) {
      var front, last := s[..|s| - 1], [s[|s| - 1]];
      tail := TrimEndIs(front);
      Regroup(TrimEnd(front), tail, last);
      tail := tail + last;
    } else {
      tail := "";
    }
  }

  lemma {:induction false} TrimEndMatchesIs(s: string, c: char) returns (tail: string)
    ensures s == TrimEndMatches(s, c) + tail && AllOf(tail, c)
    ensures TrimEndMatches(s, c) != "" ==> TrimEndMatches(s, c)[|TrimEndMatches(s, c)| - 1] != c
  {
    if s != "" && s[|s| - 1] == c {
      var front, last := s[..|s| - 1], [s[|s| - 1]];
      tail := TrimEndMatchesIs(front, c);
      Regroup(TrimEndMatches(front, c), tail, last);
      tail := tail + last;
    } else {
      tail := "";
    }
  }

  /** A statement is its piece without the delimiters at the very end, all of them, and then
  without the white space around it; nothing else is taken away. */
  lemma {:induction false} StatementIs(p: Parser, piece: Piece)
    returns (lead: string, spaces: string, delimiters: string)
    requires Statement(p, piece) != []
    ensures piece.valid && |Statement(p, piece)| == 1
    ensures var statement := Statement(p, piece)[0];
            && piece.text == lead + statement + spaces + delimiters
            && Spaces(lead) && Spaces(spaces) && AllOf(delimiters, p.delimiter)
            && (statement != "" ==> !IsSpace(statement[0]) && !IsSpace(statement[|statement| - 1]))
            && (var kept := lead + statement + spaces; kept != "" ==> kept[|kept| - 1] != p.delimiter)
  {
    hide TrimStart, TrimEnd, TrimEndMatches, IsSpace;
    var sql := TrimEndMatches(piece.text, p.delimiter);
    delimiters := TrimEndMatchesIs(piece.text, p.delimiter);
    lead := TrimStartIs(sql);
    spaces := TrimEndIs(TrimStart(sql));
    Regroup(lead, Trim(sql), spaces);
  }

  lemma {:induction false} TrimSkips(lead: string, s: string)
    requires Spaces(lead)
    ensures TrimStart(lead + s) == TrimStart(s)
  {
    if lead == "" {
      assert lead + s == s;
    } else {
      assert (lead + s)[1..] == lead[1..] + s;
      TrimSkips(lead[1..], s);
    }
  }

  lemma {:induction false} TrimDrops(s: string, tail: string)
    requires Spaces(tail)
    ensures TrimEnd(s + tail) == TrimEnd(s)
  {
    if tail == "" {
      assert s + tail == s;
    } else {
      assert (s + tail)[..|s + tail| - 1] == s + tail[..|tail| - 1];
      TrimDrops(s, tail[..|tail| - 1]);
    }
  }

  /** A delimiter alone, with any white space around it. */
  ghost predicate OnlyDelimiter(text: string, delimiter: char) {
    exists lead, tail :: Spaces(lead) && Spaces(tail) && text == lead + [delimiter] + tail
  }

  /** A piece gives a statement if and only if its tokens are valid and it is not a delimiter
  alone. */
  lemma {:induction false} StatementGiven(p: Parser, piece: Piece)
    requires !IsSpace(p.delimiter)
    ensures Statement(p, piece) != [] <==> piece.valid && !OnlyDelimiter(piece.text, p.delimiter)
  {
    hide IsSpace, TrimStart, TrimEnd;
    var text, one := piece.text, [p.delimiter];
    var lead := TrimStartIs(text);
    var tail := TrimEndIs(TrimStart(text));
    if Trim(text) == one {
      Regroup(lead, one, tail);
      assert text == lead + one + tail;
    }
    if OnlyDelimiter(text, p.delimiter) {
      var l, t :| Spaces(l) && Spaces(t) && text == l + one + t;
      Regroup(l, one, t);
      TrimSkips(l, one + t);
      NoSpaceTrim(one, t);
      TrimDrops(one, t);
    }
  }

  lemma NoSpaceTrim(one: string, t: string)
    requires |one| == 1 && !IsSpace(one[0])
    ensures TrimStart(one + t) == one + t && TrimEnd(one) == one
  {
  }

  // ---------------------------------------------------------------------------
  // Lines
  // ---------------------------------------------------------------------------

  function Upper(c: char): char {
    if 'a' <= c <= 'z' then c - 'a' + 'A' else c
  }

  /** A command of the interactive mode, which is never buffered. */
  predicate IsCommand(line: string) {
    || (line != "" && line[0] == '!')
    || line == "exit" || line == "quit"
    || (|line| >= 3 && Upper(line[0]) == 'P' && Upper(line[1]) == 'U' && Upper(line[2]) == 'T')
  }

  predicate IsLineComment(line: string) {
    |line| >= 2 && line[..2] == "--"
  }

  /** What is parsed when `line` joins the buffer. */
  function Joining(buffer: string, line: string): string {
    if buffer == "" then line else buffer + "\n" + line
  }

  /** What a line gives: statements, the buffer afterwards, and the error if it was set. */
  ghost function Fed(p: Parser, tokenize: Tokenizer, line: string, buffer: string, err: string)
    : (seq<string>, string, string)
    requires Lawful(tokenize)
  {
    if line == "" then ([], buffer, err)
    else if buffer == "" && IsCommand(line) then ([line], buffer, err)
    else if !p.multiLine then (if IsLineComment(line) then [] else [line], buffer, err)
    else
      var parsed := Parse(p, tokenize, Joining(buffer, line));
      (StatementsOf(p, parsed.pieces), parsed.remaining, parsed.err)
  }

  /** What becomes of a line. An empty one gives nothing. With nothing in the buffer, one that
  starts with `!` or, in any case, with `put`, or that is `exit` or `quit`, is given as it
  is. Any other is given as it is in single-line mode, unless it starts with `--`, and in
  multi-line mode joins the buffer, which is then split. */
  lemma LineModes(p: Parser, tokenize: Tokenizer, line: string, buffer: string, err: string)
    requires Lawful(tokenize)
    ensures var put := |line| >= 3 && line[0] in "pP" && line[1] in "uU" && line[2] in "tT";
            var command := buffer == "" && ("!" <= line || put || line in ["exit", "quit"]);
            var fed := Fed(p, tokenize, line, buffer, err);
            && (line == "" ==> fed == ([], buffer, err))
            && (line != "" && command ==> fed == ([line], buffer, err))
            && (line != "" && !command && !p.multiLine ==> fed == (if "--" <= line then [] else [line], buffer, err))
            && (line != "" && !command && p.multiLine ==>
                  var whole := if buffer == "" then line else buffer + "\n" + line;
                  var parsed := Parse(p, tokenize, whole);
                  fed == (StatementsOf(p, parsed.pieces), parsed.remaining, parsed.err))
  {
    hide Parse, Lawful, StatementsOf;
  }

  /** The pieces that a line cuts off in the multi-line mode: a command is one. */
  ghost function FedPieces(p: Parser, tokenize: Tokenizer, line: string, buffer: string): seq<Piece>
    requires Lawful(tokenize)
  {
    if line == "" then []
    else if buffer == "" && IsCommand(line) then [Piece(line, true)]
    else Parse(p, tokenize, Joining(buffer, line)).pieces
  }

  /** The buffer after each of the lines has been fed. */
  ghost function FedBuffer(p: Parser, tokenize: Tokenizer, lines: seq<string>, buffer: string): string
    requires Lawful(tokenize)
    decreases |lines|
  {
    if lines == [] then buffer
    else FedBuffer(p, tokenize, lines[1..], Fed(p, tokenize, lines[0], buffer, "").1)
  }

  /** The pieces of a whole session, line after line. */
  ghost function SessionPieces(p: Parser, tokenize: Tokenizer, lines: seq<string>, buffer: string): seq<Piece>
    requires Lawful(tokenize)
    decreases |lines|
  {
    if lines == [] then []
    else
      FedPieces(p, tokenize, lines[0], buffer)
      + SessionPieces(p, tokenize, lines[1..], Fed(p, tokenize, lines[0], buffer, "").1)
  }

  /** The text of a session: the lines, with a newline before each one, but for empty lines,
  that finds the buffer not empty. */
  ghost function SessionText(p: Parser, tokenize: Tokenizer, lines: seq<string>, buffer: string): string
    requires Lawful(tokenize)
    decreases |lines|
  {
    if lines == [] then ""
    else
      (if lines[0] == "" || buffer == "" then lines[0] else "\n" + lines[0])
      + SessionText(p, tokenize, lines[1..], Fed(p, tokenize, lines[0], buffer, "").1)
  }

  lemma {:induction false} TextsAppend(a: seq<Piece>, b: seq<Piece>)
    ensures Texts(a + b) == Texts(a) + Texts(b)
  {
    if a == [] {
      assert a + b == b && "" + Texts(b) == Texts(b);
    } else {
      TextsAppend(a[1..], b);
      assert (a + b)[1..] == a[1..] + b;
      Regroup(a[0].text, Texts(a[1..]), Texts(b));
    }
  }

  /** One line in the multi-line mode loses nothing. */
  lemma {:induction false} LineConserves(p: Parser, tokenize: Tokenizer, line: string, buffer: string)
    requires Lawful(tokenize) && p.multiLine
    ensures var buffer' := Fed(p, tokenize, line, buffer, "").1;
            buffer + (if line == "" || buffer == "" then line else "\n" + line)
            == Texts(FedPieces(p, tokenize, line, buffer)) + buffer'
  {
    hide Parse, Lawful, IsCommand;
    if line == "" {
      assert buffer + line == "" + buffer;
    } else if buffer == "" && IsCommand(line) {
      assert Texts([Piece(line, true)]) == line by {
        assert [Piece(line, true)][1..] == [];
      }
      assert buffer + line == line + buffer;
    } else {
      ParseConserves(p, tokenize, Joining(buffer, line));
      assert Joining(buffer, line) == buffer + (if buffer == "" then line else "\n" + line) by {
        assert buffer + ("\n" + line) == buffer + "\n" + line;
      }
    }
  }

  /** Over a whole session, whatever its lines, what is cut off and what is left in the
  buffer at the end are what was in it at first and all that was typed. */
  lemma {:induction false} SessionConserves(p: Parser, tokenize: Tokenizer, lines: seq<string>, buffer: string)
    requires Lawful(tokenize) && p.multiLine
    ensures buffer + SessionText(p, tokenize, lines, buffer)
            == Texts(SessionPieces(p, tokenize, lines, buffer)) + FedBuffer(p, tokenize, lines, buffer)
    decreases |lines|
  {
    hide Fed, FedPieces, Texts, Lawful;
    if lines == [] {
      NoTexts();
      assert buffer + "" == "" + buffer;
    } else {
      var next := Fed(p, tokenize, lines[0], buffer, "").1;
      LineConserves(p, tokenize, lines[0], buffer);
      SessionConserves(p, tokenize, lines[1..], next);
      TextsAppend(FedPieces(p, tokenize, lines[0], buffer), SessionPieces(p, tokenize, lines[1..], next));
      var typed := if lines[0] == "" || buffer == "" then lines[0] else "\n" + lines[0];
      Regroup(buffer, typed, SessionText(p, tokenize, lines[1..], next));
      Regroup(Texts(FedPieces(p, tokenize, lines[0], buffer)), next, SessionText(p, tokenize, lines[1..], next));
      Regroup(Texts(FedPieces(p, tokenize, lines[0], buffer)),
              Texts(SessionPieces(p, tokenize, lines[1..], next)), FedBuffer(p, tokenize, lines[1..], next));
    }
  }

  lemma NoTexts()
    ensures Texts([]) == ""
  {
  }

  /** A comment left open in the buffer is found again, at the same place, when a line
  joins it, unless the line closes it. */
  lemma {:induction false} OpenCommentWaits(buffer: string, line: string, pos: nat)
    requires buffer != "" && UnclosedStart(buffer) == Some(pos)
    ensures UnclosedStart(Joining(buffer, line)) == Some(pos) <==> NeverCloses(line)
  {
    hide Scan, NeverCloses;
    ScanLines(buffer, line, 0, Plain);
    OpensLater(buffer, 0, Plain);
    StaysOpen(line, |buffer| + 1, pos);
  }

  /** `taken` has been split off `whole`, and the rest is still to be split. */
  ghost predicate Progress(p: Parser, tokenize: Tokenizer, whole: Parsing, taken: seq<Piece>, remaining: string,
                           err: string)
    requires Lawful(tokenize)
  {
    var more := Split(p, tokenize, remaining, err);
    whole == more.(pieces := taken + more.pieces)
  }

  lemma {:induction false} SplitStarts(p: Parser, tokenize: Tokenizer, s: string)
    requires Lawful(tokenize)
    ensures Progress(p, tokenize, Split(p, tokenize, s, ""), [], s, "")
  {
    hide Split;
    assert [] + Split(p, tokenize, s, "").pieces == Split(p, tokenize, s, "").pieces;
  }

  lemma {:induction false} TakePiece(p: Parser, tokenize: Tokenizer, whole: Parsing, taken: seq<Piece>, s: string,
                                     err: string)
    requires Lawful(tokenize) && Progress(p, tokenize, whole, taken, s, err)
    ensures var cut := FirstCut(p, tokenize, s, err);
            match cut.end
            case None => whole == Parsing(taken, s, cut.err)
            case Some(end) => Progress(p, tokenize, whole, taken + [Piece(s[..end], cut.valid)], s[end..], cut.err)
  {
    hide FirstCut;
    var cut := FirstCut(p, tokenize, s, err);
    match cut.end
    case None => assert taken + [] == taken;
    case Some(end) =>
      var piece := Piece(s[..end], cut.valid);
      var more := Split(p, tokenize, s[end..], cut.err);
      assert taken + ([piece] + more.pieces) == taken + [piece] + more.pieces;
  }

  // ---------------------------------------------------------------------------
  // The parser as the source writes it
  // ---------------------------------------------------------------------------

  class SqlParser {
    const parser: Parser
    const tokenize: Tokenizer

    constructor (parser: Parser, tokenize: Tokenizer)
      ensures this.parser == parser && this.tokenize == tokenize
    {
      this.parser, this.tokenize := parser, tokenize;
    }

    /** The loop over the tokens of what remains, up to the end of a statement. */
    method FindEnd(remaining: string, err: string) returns (cut: Cut)
      requires Lawful(tokenize)
      ensures cut == FirstCut(parser, tokenize, remaining, err)
    {
      var tokens := tokenize(remaining);
      assert InBounds(remaining, tokens) && tokens[0..] == tokens;
      var valid, last, afterBackslash := true, err, false;
      for i := 0 to |tokens|
        invariant InBounds(remaining, tokens[i..])
        invariant FindCut(parser, remaining, tokens[i..], afterBackslash, valid, last)
                  == FirstCut(parser, tokenize, remaining, err)
      {
        assert tokens[i..][0] == tokens[i] && tokens[i..][1..] == tokens[i + 1..];
        match tokens[i]
        case Invalid(e) =>
          valid, last := false, e;
        case Token(kind, start, end) =>
          if EndsQuery(parser, remaining[start..end], kind, afterBackslash) {
            return Cut(Some(end), valid, last);
          }
          afterBackslash := kind == Backslash;
      }
      cut := Cut(None, valid, last);
    }

    method ParseStatements(query: string) returns (statements: seq<string>, remaining: string, err: string)
      requires Lawful(tokenize)
      ensures var parsed := Parse(parser, tokenize, query);
              && statements == StatementsOf(parser, parsed.pieces)
              && remaining == parsed.remaining && err == parsed.err
    {
      hide Scan, FirstCut, Trim, TrimEndMatches, NeverCloses, Split, Progress, Lawful;
      var open := UnclosedBlockCommentStart(query);
      var tail := "";
      remaining := query;
      if open.Some? {
        SafeCut(query, open.value);
        remaining, tail := query[..open.value], query[open.value..];
      }
      statements, err := [], "";
      ghost var whole := Split(parser, tokenize, remaining, "");
      ghost var taken: seq<Piece> := [];
      SplitStarts(parser, tokenize, remaining);
      while true
        invariant Progress(parser, tokenize, whole, taken, remaining, err)
        invariant statements == StatementsOf(parser, taken)
        decreases |remaining|
      {
        var cut := FindEnd(remaining, err);
        TakePiece(parser, tokenize, whole, taken, remaining, err);
        err := cut.err;
        if cut.end.None? {
          break;
        }
        var sql := remaining[..cut.end.value];
        if cut.valid && sql != "" && Trim(sql) != [parser.delimiter] {
          statements := statements + [Trim(TrimEndMatches(sql, parser.delimiter))];
        }
        ghost var piece := Piece(sql, cut.valid);
        StatementsAppend(parser, taken, piece);
        taken := taken + [piece];
        remaining := remaining[cut.end.value..];
      }
      remaining := remaining + tail;
    }

    method ParseLine(line: string, buffer: string, err: string)
      returns (statements: seq<string>, buffer': string, err': string)
      requires Lawful(tokenize)
      ensures (statements, buffer', err') == Fed(parser, tokenize, line, buffer, err)
    {
      hide Parse;
      if line == "" {
        return [], buffer, err;
      }
      if buffer == "" && IsCommand(line) {
        return [line], buffer, err;
      }
      if !parser.multiLine {
        if IsLineComment(line) {
          return [], buffer, err;
        } else {
          return [line], buffer, err;
        }
      }
      buffer' := buffer;
      if buffer' != "" {
        buffer' := buffer' + "\n";
      }
      buffer' := buffer' + line;
      assert buffer' == Joining(buffer, line);
      statements, buffer', err' := ParseStatements(buffer');
    }
  }

  lemma {:induction false} StatementsAppend(p: Parser, pieces: seq<Piece>, piece: Piece)
    ensures StatementsOf(p, pieces + [piece]) == StatementsOf(p, pieces) + Statement(p, piece)
  {
    hide Statement;
    if pieces == [] {
      assert [piece][1..] == [] && Statement(p, piece) + [] == [] + Statement(p, piece);
    } else {
      StatementsAppend(p, pieces[1..], piece);
      assert (pieces + [piece])[1..] == pieces[1..] + [piece];
    }
  }
}
