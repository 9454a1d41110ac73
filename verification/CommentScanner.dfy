/** The block-comment scanner of the command line (`cli/src/sql_parser.rs`).

The source keeps five flags; here they are the modes of one automaton, and the method
below shows that the flags are such a mode. */
module CommentScanner {
  import opened Results

  datatype Mode =
    | Plain
    | Line
    | Block(open: nat)
    | Single
    | Double
    | Dollar

  predicate Ahead(s: string, a: char, b: char) {
    |s| >= 2 && s[0] == a && s[1] == b
  }

  /** One turn on the text `s` that is left, which starts at offset `at`: the next mode,
  and the one or two characters consumed. */
  function Turn(s: string, at: nat, m: Mode): (r: (Mode, nat))
    requires s != ""
    ensures r.1 == 1 || (r.1 == 2 && |s| >= 2 && s[1] in "*/$-")
  {
    var c := s[0];
    if c == '\n' then (if m.Line? then Plain else m, 1)
    else if m.Line? then (m, 1)
    else if m.Block? then if Ahead(s, '*', '/') then (Plain, 2) else (m, 1)
    else if m.Dollar? then if Ahead(s, '$', '$') then (Plain, 2) else (m, 1)
    else if c == '\'' && !m.Double? then (if m.Single? then Plain else Single, 1)
    else if c == '"' && !m.Single? then (if m.Double? then Plain else Double, 1)
    else if m.Plain? && Ahead(s, '$', '$') then (Dollar, 2)
    else if m.Plain? && Ahead(s, '-', '-') then (Line, 2)
    else if m.Plain? && Ahead(s, '/', '*') then (Block(at), 2)
    else (m, 1)
  }

  /** The mode after all of `s`, which starts at offset `at`. */
  function Scan(s: string, at: nat, m: Mode): Mode
    decreases |s|
  {
    if s == "" then m
    else
      var (next, width) := Turn(s, at, m);
      Scan(s[width..], at + width, next)
  }

  function UnclosedStart(s: string): Option<nat> {
    match Scan(s, 0, Plain)
    case Block(open) => Some(open)
    case _ => None
  }

  lemma ScanStep(s: string, at: nat, m: Mode)
    ensures s == "" ==> Scan(s, at, m) == m
    ensures s != "" ==> Scan(s, at, m) == Scan(s[Turn(s, at, m).1..], at + Turn(s, at, m).1, Turn(s, at, m).0)
  {
    hide Turn;
  }

  // ---------------------------------------------------------------------------
  // Line by line
  // ---------------------------------------------------------------------------

  function EndLine(m: Mode): Mode {
    if m.Line? then Plain else m
  }

  lemma {:induction false} TurnBeforeNewline(s: string, t: string, at: nat, m: Mode)
    requires s != ""
    ensures Turn(s + "\n" + t, at, m) == Turn(s, at, m)
    ensures (s + "\n" + t)[Turn(s, at, m).1..] == s[Turn(s, at, m).1..] + "\n" + t
  {
    assert (s + "\n" + t)[0] == s[0];
    assert (s + "\n" + t)[1] == if |s| >= 2 then s[1] else '\n';
  }

  /** Scanning is compositional over lines, although it looks two characters ahead:
  scanning two texts joined by a newline is scanning one and then, from the mode and the
  open comment that it left, the other. */
  lemma {:induction false} ScanLines(s: string, t: string, at: nat, m: Mode)
    ensures Scan(s + "\n" + t, at, m) == Scan(t, at + |s| + 1, EndLine(Scan(s, at, m)))
    decreases |s|
  {
    hide Turn, Scan;
    var text := s + "\n" + t;
    ScanStep(s, at, m);
    ScanStep(text, at, m);
    if s == "" {
      TurnAtNewline(t, at, m);
    } else {
      TurnBeforeNewline(s, t, at, m);
      var (next, width) := Turn(s, at, m);
      ScanLines(s[width..], t, at + width, next);
    }
  }

  lemma {:induction false} TurnAtNewline(t: string, at: nat, m: Mode)
    ensures Turn("" + "\n" + t, at, m) == (EndLine(m), 1) && ("" + "\n" + t)[1..] == t
  {
    assert ("" + "\n" + t)[0] == '\n';
  }

  /** Scans a buffer line by line, as the text grows. */
  function ScanAll(lines: seq<string>, at: nat, m: Mode): Mode
    decreases |lines|
  {
    if lines == [] then m
    else if |lines| == 1 then Scan(lines[0], at, m)
    else ScanAll(lines[1..], at + |lines[0]| + 1, EndLine(Scan(lines[0], at, m)))
  }

  function Joined(lines: seq<string>): string {
    if lines == [] then ""
    else if |lines| == 1 then lines[0]
    else lines[0] + "\n" + Joined(lines[1..])
  }

  lemma {:induction false} ScanJoined(lines: seq<string>, at: nat, m: Mode)
    ensures Scan(Joined(lines), at, m) == ScanAll(lines, at, m)
    decreases |lines|
  {
    hide Scan;
    if lines == [] {
      ScanStep("", at, m);
    } else if |lines| > 1 {
      ScanLines(lines[0], Joined(lines[1..]), at, m);
      ScanJoined(lines[1..], at + |lines[0]| + 1, EndLine(Scan(lines[0], at, m)));
    }
  }

  // ---------------------------------------------------------------------------
  // The pieces of a text
  // ---------------------------------------------------------------------------

  /** What may stand between two marks without being read. */
  datatype Enclosure = SingleQuotes | DoubleQuotes | Dollars | LineComment | BlockComment

  function OpeningOf(k: Enclosure): string {
    match k
    case SingleQuotes => "'"
    case DoubleQuotes => "\""
    case Dollars => "$$"
    case LineComment => "--"
    case BlockComment => "/*"
  }

  function ClosingOf(k: Enclosure): string {
    match k
    case SingleQuotes => "'"
    case DoubleQuotes => "\""
    case Dollars => "$$"
    case LineComment => "\n"
    case BlockComment => "*/"
  }

  datatype Piece = Enclosed(kind: Enclosure, body: string) | Other(c: char)

  function PieceText(p: Piece): string {
    match p
    case Enclosed(kind, body) => OpeningOf(kind) + body + ClosingOf(kind)
    case Other(c) => [c]
  }

  function PiecesText(ps: seq<Piece>): string {
    if ps == [] then "" else PieceText(ps[0]) + PiecesText(ps[1..])
  }

  predicate OpensSomething(s: string) {
    exists k: Enclosure :: OpeningOf(k) <= s
  }

  /** The first `mark` at or behind the start of `b`, which `t` follows, is not in `b`. */
  predicate NoneIn(mark: string, b: string, t: string) {
    forall j :: 0 <= j < |b| ==> !(mark <= (b + t)[j..])
  }

  /** An enclosure ends at the first closing mark, and a character outside opens none. */
  predicate ProperPiece(p: Piece, rest: string) {
    match p
    case Enclosed(kind, body) => NoneIn(ClosingOf(kind), body, ClosingOf(kind))
    case Other(c) => !OpensSomething([c] + rest)
  }

  predicate ProperPieces(ps: seq<Piece>, rest: string) {
    ps != [] ==> ProperPiece(ps[0], PiecesText(ps[1..]) + rest) && ProperPieces(ps[1..], rest)
  }

  /** An enclosure that nothing closes. */
  datatype Tail = Tail(kind: Enclosure, body: string)

  function TailText(tail: Option<Tail>): string {
    match tail
    case None => ""
    case Some(t) => OpeningOf(t.kind) + t.body
  }

  /** `s` is pieces, and behind them nothing or an enclosure that nothing closes. */
  predicate Lexes(s: string, ps: seq<Piece>, tail: Option<Tail>) {
    && s == PiecesText(ps) + TailText(tail) && ProperPieces(ps, TailText(tail))
    && (tail.Some? ==> NoneIn(ClosingOf(tail.value.kind), tail.value.body, ""))
  }

  function Inside(k: Enclosure, open: nat): Mode {
    match k
    case SingleQuotes => Single
    case DoubleQuotes => Double
    case Dollars => Dollar
    case LineComment => Line
    case BlockComment => Block(open)
  }

  lemma Enters(s: string, at: nat, k: Enclosure)
    requires OpeningOf(k) <= s
    ensures Turn(s, at, Plain) == (Inside(k, at), |OpeningOf(k)|)
  {
  }

  lemma Passes(s: string, at: nat)
    requires s != "" && !OpensSomething(s)
    ensures Turn(s, at, Plain) == (Plain, 1)
  {
    assert !(OpeningOf(SingleQuotes) <= s) && !(OpeningOf(DoubleQuotes) <= s);
    assert !(OpeningOf(Dollars) <= s) && !(OpeningOf(LineComment) <= s) && !(OpeningOf(BlockComment) <= s);
  }

  lemma Stays(s: string, at: nat, k: Enclosure, open: nat)
    requires s != "" && !(ClosingOf(k) <= s)
    ensures Turn(s, at, Inside(k, open)) == (Inside(k, open), 1)
  {
  }

  lemma Leaves(s: string, at: nat, k: Enclosure, open: nat)
    requires ClosingOf(k) <= s
    ensures Turn(s, at, Inside(k, open)) == (Plain, |ClosingOf(k)|)
  {
  }

  /** Whatever stands in an enclosure is passed over. */
  lemma {:induction false} ScanBody(b: string, t: string, at: nat, k: Enclosure, open: nat)
    requires NoneIn(ClosingOf(k), b, t)
    ensures Scan(b + t, at, Inside(k, open)) == Scan(t, at + |b|, Inside(k, open))
    decreases |b|
  {
    hide Scan, Turn, Inside, ClosingOf;
    if b == "" {
      assert b + t == t;
    } else {
      assert (b + t)[0..] == b + t && (b + t)[1..] == b[1..] + t;
      Stays(b + t, at, k, open);
      ScanStep(b + t, at, Inside(k, open));
      forall j | 0 <= j < |b[1..]| ensures !(ClosingOf(k) <= (b[1..] + t)[j..]) {
        assert (b[1..] + t)[j..] == (b + t)[j + 1..];
      }
      ScanBody(b[1..], t, at + 1, k, open);
    }
  }

  lemma {:induction false} ScanOpening(k: Enclosure, t: string, at: nat)
    ensures Scan(OpeningOf(k) + t, at, Plain) == Scan(t, at + |OpeningOf(k)|, Inside(k, at))
  {
    hide Scan, Turn, Inside;
    Enters(OpeningOf(k) + t, at, k);
    ScanStep(OpeningOf(k) + t, at, Plain);
    assert (OpeningOf(k) + t)[|OpeningOf(k)|..] == t;
  }

  lemma {:induction false} NoneInLonger(mark: string, b: string, rest: string)
    requires NoneIn(mark, b, mark)
    ensures NoneIn(mark, b, mark + rest)
  {
    forall j | 0 <= j < |b| ensures !(mark <= (b + (mark + rest))[j..]) {
      assert (b + (mark + rest))[j..] == (b + mark)[j..] + rest;
    }
  }

  /** A piece leaves the scanner in plain text behind it, whatever it holds. */
  lemma {:induction false} ScanPiece(p: Piece, rest: string, at: nat)
    requires ProperPiece(p, rest)
    ensures Scan(PieceText(p) + rest, at, Plain) == Scan(rest, at + |PieceText(p)|, Plain)
  {
    hide Scan, Turn, Inside, OpeningOf, ClosingOf, OpensSomething;
    match p
    case Enclosed(kind, body) =>
      var closing := ClosingOf(kind);
      assert PieceText(p) + rest == OpeningOf(kind) + (body + (closing + rest));
      ScanOpening(kind, body + (closing + rest), at);
      NoneInLonger(closing, body, rest);
      var from := at + |OpeningOf(kind)|;
      ScanBody(body, closing + rest, from, kind, at);
      ClosingIsText(kind);
      Leaves(closing + rest, from + |body|, kind, at);
      ScanStep(closing + rest, from + |body|, Inside(kind, at));
      assert (closing + rest)[|closing|..] == rest;
    case Other(c) =>
      assert ([c] + rest)[1..] == rest;
      Passes([c] + rest, at);
      ScanStep([c] + rest, at, Plain);
  }

  lemma ClosingIsText(k: Enclosure)
    ensures 1 <= |ClosingOf(k)| <= 2 && 1 <= |OpeningOf(k)| <= 2
  {
  }

  lemma {:induction false} ScanPieces(ps: seq<Piece>, rest: string, at: nat)
    requires ProperPieces(ps, rest)
    ensures Scan(PiecesText(ps) + rest, at, Plain) == Scan(rest, at + |PiecesText(ps)|, Plain)
  {
    hide Scan, PieceText, ProperPiece;
    if ps == [] {
      assert "" + rest == rest;
    } else {
      var more := PiecesText(ps[1..]) + rest;
      assert PiecesText(ps) + rest == PieceText(ps[0]) + more;
      ScanPiece(ps[0], more, at);
      ScanPieces(ps[1..], rest, at + |PieceText(ps[0])|);
    }
  }

  /** The scanner is right: however a text is made of pieces, it reports the block comment
  that nothing closes, if there is one, and that is where the pieces end. */
  lemma {:induction false} LexedScan(s: string, ps: seq<Piece>, tail: Option<Tail>)
    requires Lexes(s, ps, tail)
    ensures UnclosedStart(s) ==
            if tail.Some? && tail.value.kind == BlockComment then Some(|PiecesText(ps)|) else None
  {
    hide Scan, NoneIn, OpeningOf, ClosingOf, ProperPieces;
    ScanPieces(ps, TailText(tail), 0);
    match tail
    case None => ScanStep("", |PiecesText(ps)|, Plain);
    case Some(t) =>
      var at := |PiecesText(ps)|;
      ScanOpening(t.kind, t.body, at);
      ScanBody(t.body, "", at + |OpeningOf(t.kind)|, t.kind, at);
      assert t.body + "" == t.body;
      ScanStep("", at + |OpeningOf(t.kind)| + |t.body|, Inside(t.kind, at));
  }

  /** Where `mark` first stands in `s`, or its length. */
  lemma {:induction false} FirstMark(mark: string, s: string) returns (n: nat)
    requires mark != ""
    ensures n <= |s| && NoneIn(mark, s[..n], s[n..])
    ensures n < |s| ==> mark <= s[n..]
    ensures n == |s| ==> NoneIn(mark, s, "")
    decreases |s|
  {
    if s == "" {
      n := 0;
    } else if mark <= s {
      n := 0;
      assert s[0..] == s;
    } else {
      var m := FirstMark(mark, s[1..]);
      n := m + 1;
      assert s[n..] == s[1..][m..] && s[..n] + s[n..] == s && s + "" == s;
      forall j | 0 <= j < n ensures !(mark <= s[j..]) {
        if j == 0 {
          assert s[0..] == s;
        } else {
          assert s[1..][..m] + s[1..][m..] == s[1..] && s[1..][j - 1..] == s[j..];
        }
      }
    }
  }

  /** Every text is made of pieces. */
  lemma {:induction false} Lexed(s: string) returns (ps: seq<Piece>, tail: Option<Tail>)
    ensures Lexes(s, ps, tail)
    decreases |s|
  {
    hide OpeningOf, ClosingOf, NoneIn;
    if s == "" {
      ps, tail := [], None;
    } else if k: Enclosure :| OpeningOf(k) <= s {
      ClosingIsText(k);
      var inner := s[|OpeningOf(k)|..];
      var n := FirstMark(ClosingOf(k), inner);
      if n == |inner| {
        ps, tail := [], Some(Tail(k, inner));
      } else {
        var more;
        more, tail := Lexed(inner[n + |ClosingOf(k)|..]);
        ps := [Enclosed(k, inner[..n])] + more;
        EnclosedFirst(s, k, n);
        LexesMore(ps[0], inner[n + |ClosingOf(k)|..], more, tail);
      }
    } else {
      var more;
      more, tail := Lexed(s[1..]);
      ps := [Other(s[0])] + more;
      assert [s[0]] + s[1..] == s;
      LexesMore(ps[0], s[1..], more, tail);
    }
  }

  lemma {:induction false} LexesMore(p: Piece, rest: string, more: seq<Piece>, tail: Option<Tail>)
    requires Lexes(rest, more, tail) && ProperPiece(p, rest)
    ensures Lexes(PieceText(p) + rest, [p] + more, tail)
  {
    hide NoneIn, TailText, PieceText, ProperPiece;
    assert ([p] + more)[0] == p && ([p] + more)[1..] == more;
    assert PieceText(p) + (PiecesText(more) + TailText(tail)) == PieceText(p) + PiecesText(more) + TailText(tail);
  }

  /** The enclosure at the front of `s`, with `n` characters up to its closing mark. */
  lemma {:induction false} EnclosedFirst(s: string, k: Enclosure, n: nat)
    requires OpeningOf(k) <= s && |OpeningOf(k)| + n + |ClosingOf(k)| <= |s|
    requires var inner := s[|OpeningOf(k)|..];
             NoneIn(ClosingOf(k), inner[..n], inner[n..]) && ClosingOf(k) <= inner[n..]
    ensures var inner := s[|OpeningOf(k)|..];
            var p, rest := Enclosed(k, inner[..n]), inner[n + |ClosingOf(k)|..];
            s == PieceText(p) + rest && ProperPiece(p, rest)
  {
    hide OpeningOf, ClosingOf, NoneIn;
    var open, mark := OpeningOf(k), ClosingOf(k);
    var inner := s[|open|..];
    var b, t := inner[..n], inner[n..];
    NoneInShorter(mark, b, t);
    assert s == open + inner && inner == b + t && t == mark + t[|mark|..] && t[|mark|..] == inner[n + |mark|..];
    assert open + (b + (mark + t[|mark|..])) == open + b + mark + t[|mark|..];
  }

  lemma {:induction false} NoneInShorter(mark: string, b: string, t: string)
    requires NoneIn(mark, b, t) && mark <= t
    ensures NoneIn(mark, b, mark)
  {
    forall j | 0 <= j < |b| ensures !(mark <= (b + mark)[j..]) {
      assert (b + t)[j..] == (b + mark)[j..] + t[|mark|..];
    }
  }

  // ---------------------------------------------------------------------------
  // Where the open comment starts
  // ---------------------------------------------------------------------------

  /** `*` `/` nowhere in `s`. */
  predicate NeverCloses(s: string) {
    forall j :: 0 <= j < |s| - 1 ==> !Closes(s, j)
  }

  predicate Closes(s: string, j: nat)
    requires j + 1 < |s|
  {
    s[j] == '*' && s[j + 1] == '/'
  }

  lemma {:induction false} NeverClosesTail(s: string)
    requires s != ""
    ensures NeverCloses(s) <==> !Ahead(s, '*', '/') && NeverCloses(s[1..])
  {
    if !Ahead(s, '*', '/') && NeverCloses(s[1..]) {
      forall j | 0 <= j < |s| - 1 ensures !Closes(s, j) {
        if j > 0 {
          assert !Closes(s[1..], j - 1);
        }
      }
    }
    if NeverCloses(s) {
      assert |s| >= 2 ==> !Closes(s, 0);
      forall j | 0 <= j < |s[1..]| - 1 ensures !Closes(s[1..], j) {
        assert !Closes(s, j + 1);
      }
    }
  }

  /** A comment stays open over `s` exactly when nothing in it closes it. */
  lemma {:induction false} StaysOpen(s: string, at: nat, open: nat)
    requires open < at
    ensures Scan(s, at, Block(open)) == Block(open) <==> NeverCloses(s)
    decreases |s|
  {
    hide Scan;
    ScanStep(s, at, Block(open));
    if s != "" {
      NeverClosesTail(s);
      if Ahead(s, '*', '/') {
        OpensLater(s[2..], at + 2, Plain);
      } else {
        StaysOpen(s[1..], at + 1, open);
      }
    }
  }

  /** A comment open after `s` was open before, or opens in it. */
  lemma {:induction false} OpensLater(s: string, at: nat, m: Mode)
    requires m.Block? ==> m.open < at
    ensures var end := Scan(s, at, m);
            end.Block? ==> end == m || (at <= end.open && end.open + 2 <= at + |s|)
    decreases |s|
  {
    if s != "" {
      var (next, width) := Turn(s, at, m);
      OpensLater(s[width..], at + width, next);
    }
  }

  /** At `pos`, in plain text, a comment opens that nothing closes. */
  predicate OpensAt(s: string, at: nat, m: Mode, pos: nat) {
    && at <= pos && pos + 2 <= at + |s|
    && Scan(s[..pos - at], at, m) == Plain
    && Ahead(s[pos - at..], '/', '*')
    && NeverCloses(s[pos - at + 2..])
  }

  /** Where the text up to `cut` ends with a turn, it is scanned as it is in the whole. */
  lemma {:induction false} TurnBeforeCut(s: string, cut: nat, at: nat, m: Mode)
    requires 0 < cut <= |s|
    ensures Turn(s[..cut], at, m).1 <= Turn(s, at, m).1
    ensures Turn(s, at, m).1 <= cut ==> Turn(s[..cut], at, m) == Turn(s, at, m)
    ensures Turn(s, at, m).1 > cut && s[cut] == '/' ==> m.Block? && Turn(s[..cut], at, m).0 == m
  {
  }

  lemma {:induction false} CutTail(s: string, cut: nat, width: nat)
    requires width <= cut <= |s|
    ensures s[..cut][width..] == s[width..][..cut - width]
    ensures s[cut..] == s[width..][cut - width..]
  {
  }

  /** The scan reports an open comment at `pos` if and only if one opens there. */
  lemma {:induction false} OpenIff(s: string, at: nat, m: Mode, pos: nat)
    requires m.Block? ==> m.open < at
    requires at <= pos
    ensures Scan(s, at, m) == Block(pos) <==> OpensAt(s, at, m, pos)
    decreases |s|, 2
  {
    hide Scan, NeverCloses;
    OpensLater(s, at, m);
    if pos + 2 <= at + |s| {
      if pos == at {
        OpenHere(s, at, m);
      } else {
        OpenFurther(s, at, m, pos);
      }
    }
  }

  lemma {:induction false} OpenHere(s: string, at: nat, m: Mode)
    requires (m.Block? ==> m.open < at) && 2 <= |s|
    ensures Scan(s, at, m) == Block(at) <==> OpensAt(s, at, m, at)
  {
    hide Scan, NeverCloses, Turn;
    assert s[0..] == s && s[..0] == "";
    ScanStep("", at, m);
    ScanStep(s, at, m);
    TurnOpens(s, at, m);
    var (next, width) := Turn(s, at, m);
    if next == Block(at) {
      StaysOpen(s[2..], at + 2, at);
    } else {
      OpensLater(s[width..], at + width, next);
    }
  }

  lemma {:induction false} TurnOpens(s: string, at: nat, m: Mode)
    requires s != "" && (m.Block? ==> m.open < at)
    ensures Turn(s, at, m) == (Block(at), 2) || Turn(s, at, m).0 != Block(at)
    ensures Turn(s, at, m).0 == Block(at) <==> m == Plain && Ahead(s, '/', '*')
    ensures Turn(s, at, m).0.Block? ==> Turn(s, at, m).0.open <= at
  {
  }

  lemma {:induction false} OpenFurther(s: string, at: nat, m: Mode, pos: nat)
    requires (m.Block? ==> m.open < at) && at < pos && pos + 2 <= at + |s|
    ensures Scan(s, at, m) == Block(pos) <==> OpensAt(s, at, m, pos)
    decreases |s|, 1
  {
    if Turn(s, at, m).1 <= pos - at {
      OpenAfterTurn(s, at, m, pos);
    } else {
      OpenInsideTurn(s, at, m, pos);
    }
  }

  lemma {:induction false} OpenAfterTurn(s: string, at: nat, m: Mode, pos: nat)
    requires (m.Block? ==> m.open < at) && at < pos && pos + 2 <= at + |s| && Turn(s, at, m).1 <= pos - at
    ensures Scan(s, at, m) == Block(pos) <==> OpensAt(s, at, m, pos)
    decreases |s|, 0
  {
    hide NeverCloses, Turn, Scan, Ahead;
    var cut := pos - at;
    var (next, width) := Turn(s, at, m);
    TurnBeforeCut(s, cut, at, m);
    TurnOpens(s, at, m);
    ScanStep(s, at, m);
    ScanStep(s[..cut], at, m);
    CutTail(s, cut, width);
    CutTail(s, cut + 2, width);
    OpenIff(s[width..], at + width, next, pos);
  }

  /** No comment opens at the second character of a turn. */
  lemma {:induction false} OpenInsideTurn(s: string, at: nat, m: Mode, pos: nat)
    requires (m.Block? ==> m.open < at) && at < pos && pos + 2 <= at + |s| && Turn(s, at, m).1 > pos - at
    ensures Scan(s, at, m) != Block(pos) && !OpensAt(s, at, m, pos)
  {
    hide NeverCloses, Turn, Scan;
    var (next, width) := Turn(s, at, m);
    TurnBeforeCut(s, 1, at, m);
    TurnOpens(s, at, m);
    ScanStep(s, at, m);
    OpensLater(s[width..], at + width, next);
    ScanStep(s[..1], at, m);
    assert s[..1][1..] == "";
    ScanStep("", at + 1, Turn(s[..1], at, m).0);
    assert s[1..][0] == s[1];
  }

  /** The cut that the splitter relies on: the offset is that of the only opening of a
  comment that nothing closes, and the text before it has no open comment. */
  lemma {:induction false} SafeCut(s: string, pos: nat)
    ensures UnclosedStart(s) == Some(pos) <==> OpensAt(s, 0, Plain, pos)
    ensures UnclosedStart(s) == Some(pos) ==> pos <= |s| && UnclosedStart(s[..pos]) == None
  {
    OpenIff(s, 0, Plain, pos);
  }

  // ---------------------------------------------------------------------------
  // The scanner as the source writes it
  // ---------------------------------------------------------------------------

  /** The flags of the source, as a mode. */
  function ModeOf(block: bool, openPos: Option<nat>, single: bool, double: bool, dollar: bool, line: bool)
    : Option<Mode>
  {
    if !block && openPos.Some? then None
    else if !block && !single && !double && !dollar && !line then Some(Plain)
    else if block && !single && !double && !dollar && !line && openPos.Some? then Some(Block(openPos.value))
    else if !block && single && !double && !dollar && !line then Some(Single)
    else if !block && !single && double && !dollar && !line then Some(Double)
    else if !block && !single && !double && dollar && !line then Some(Dollar)
    else if !block && !single && !double && !dollar && line then Some(Line)
    else None
  }

  method UnclosedBlockCommentStart(s: string) returns (r: Option<nat>)
    ensures r == UnclosedStart(s)
  {
    var block := false;
    var openPos: Option<nat> := None;
    var single, double, dollar, line := false, false, false, false;
    var i := 0;
    hide Scan;
    while i < |s|
      invariant 0 <= i <= |s|
      invariant ModeOf(block, openPos, single, double, dollar, line).Some?
      invariant Scan(s[i..], i, ModeOf(block, openPos, single, double, dollar, line).value) == Scan(s, 0, Plain)
    {
      var c := s[i];
      ScanStep(s[i..], i, ModeOf(block, openPos, single, double, dollar, line).value);
      assert s[i..][0] == c && s[i..][1..] == s[i + 1..];
      assert i + 1 < |s| ==> s[i..][1] == s[i + 1] && s[i..][2..] == s[i + 2..];
      if c == '\n' {
        line := false;
        i := i + 1;
      } else if line {
        i := i + 1;
      } else if block {
        if c == '*' && i + 1 < |s| && s[i + 1] == '/' {
          block, openPos := false, None;
          i := i + 2;
        } else {
          i := i + 1;
        }
      } else if dollar {
        if c == '$' && i + 1 < |s| && s[i + 1] == '$' {
          dollar := false;
          i := i + 2;
        } else {
          i := i + 1;
        }
      } else if c == '\'' && !double {
        single := !single;
        i := i + 1;
      } else if c == '"' && !single {
        double := !double;
        i := i + 1;
      } else if c == '$' && !single && !double && i + 1 < |s| && s[i + 1] == '$' {
        dollar := true;
        i := i + 2;
      } else if c == '-' && !single && !double && i + 1 < |s| && s[i + 1] == '-' {
        line := true;
        i := i + 2;
      } else if c == '/' && !single && !double && i + 1 < |s| && s[i + 1] == '*' {
        block, openPos := true, Some(i);
        i := i + 2;
      } else {
        i := i + 1;
      }
    }
    ScanStep(s[i..], i, ModeOf(block, openPos, single, double, dollar, line).value);
    r := if block then openPos else None;
  }
}
