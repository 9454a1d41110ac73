/** Binding parameters into the text of a statement (`driver/src/placeholder.rs`).

The statement is the list of its placeholders with their spans, in the order in which the
visitor of the syntax tree meets them. */
module Placeholders {
  import opened Results
  import opened SqlLiterals
  import opened Sorting
  import opened TextEdits

  /** `?`, `:name`, and `$N`. */
  datatype Mark =
    | Question(span: Span)
    | Named(name: string, span: Span)
    | Position(pos: nat, span: Span)

  datatype Params = QuestionParams(values: seq<Json>) | NamedParams(named: map<string, Json>) {
    /** Counted from 1. */
    function GetByIndex(index: nat): Option<Json> {
      if index == 0 || NamedParams? || index > |values| then None else Some(values[index - 1])
    }

    function GetByName(name: string): Option<Json> {
      if NamedParams? && name in named then Some(named[name]) else None
    }
  }

  // ---------------------------------------------------------------------------
  // What the visitor collects and replaces
  // ---------------------------------------------------------------------------

  function QuestionOf(m: Mark): Option<Span> {
    if m.Question? then Some(m.span) else None
  }

  function NameOf(m: Mark): Option<(string, Span)> {
    if m.Named? then Some((m.name, m.span)) else None
  }

  function ColumnOf(m: Mark): Option<(nat, Span)> {
    if m.Position? then Some((m.pos, m.span)) else None
  }

  function SpanStart(s: Span): nat {
    s.start
  }

  function MarkStart(m: Mark): nat {
    m.span.start
  }

  function EditStart(e: Edit): nat {
    e.span.start
  }

  function ColumnStart(c: (nat, Span)): nat {
    c.1.start
  }

  /** The n-th span gets the n-th parameter, if there is one. */
  function IndexEdits(params: Params, spans: seq<Span>): seq<Edit> {
    if spans == [] then []
    else IndexEdits(params, Front(spans)) +
         match params.GetByIndex(|spans|)
         case Some(v) => [Edit(Last(spans), SqlText(v), false)]
         case None => []
  }

  function NameEdit(params: Params): ((string, Span)) -> Option<Edit> {
    (n: (string, Span)) => match params.GetByName(n.0)
         case Some(v) => Some(Edit(n.1, SqlText(v), false))
         case None => None
  }

  function ColumnEdit(params: Params): ((nat, Span)) -> Option<Edit> {
    (c: (nat, Span)) => match params.GetByIndex(c.0)
         case Some(v) => Some(Edit(c.1, SqlText(v), true))
         case None => None
  }

  function Replaced(params: Params, spans: seq<Span>, names: seq<(string, Span)>, columns: seq<(nat, Span)>,
                    sql: string)
    : Result<string>
  {
    var results := IndexEdits(params, SortBy(spans, SpanStart)) + Chosen(names, NameEdit(params));
    var first :- ReplaceAll(sql, SortBy(results, EditStart));
    ReplaceAll(first, Chosen(SortBy(columns, ColumnStart), ColumnEdit(params)))
  }

  function ReplaceSql(params: Params, stmt: seq<Mark>, sql: string): Result<string> {
    Replaced(params, Chosen(stmt, QuestionOf), Chosen(stmt, NameOf), Chosen(stmt, ColumnOf), sql)
  }

  // ---------------------------------------------------------------------------
  // The meaning: one pass over the text, from left to right
  // ---------------------------------------------------------------------------

  /** Spans that are not empty, lie within `from` and `to`, and come in text order. */
  predicate Ordered(marks: seq<Mark>, from: nat, to: nat) {
    && (forall i :: 0 <= i < |marks| ==> from <= marks[i].span.start < marks[i].span.end <= to)
    && (forall i, j :: 0 <= i < j < |marks| ==> marks[i].span.end <= marks[j].span.start)
  }

  /** What stands in the place of a mark, when `k` question marks come before it. Of a list
  of parameters, a `?` takes the one numbered `k` from 0, and `$N` the one numbered `N` from
  1; of named parameters, `:name` takes the one of that name. Any other mark stays. */
  function Filled(params: Params, m: Mark, k: nat, sql: string): string
    requires m.span.start <= m.span.end <= |sql|
  {
    var own := sql[m.span.start..m.span.end];
    match params
    case QuestionParams(values) => (
      match m
      case Question(_) => if k < |values| then SqlText(values[k]) else own
      case Position(pos, _) => if 1 <= pos <= |values| then SqlText(values[pos - 1]) else own
      case Named(_, _) => own)
    case NamedParams(named) =>
      if m.Named? && m.name in named then SqlText(named[m.name]) else own
  }

  /** The text from `at` on, with each mark replaced by its parameter, if it has one. */
  function Bound(params: Params, marks: seq<Mark>, k: nat, sql: string, at: nat): string
    requires at <= |sql| && Ordered(marks, at, |sql|)
    decreases |marks|
  {
    if marks == [] then sql[at..]
    else
      var m := marks[0];
      sql[at..m.span.start] + Filled(params, m, k, sql)
        + Bound(params, marks[1..], if m.Question? then k + 1 else k, sql, m.span.end)
  }

  // ---------------------------------------------------------------------------
  // The edits of a statement
  // ---------------------------------------------------------------------------

  function Questions(marks: seq<Mark>): nat {
    if marks == [] then 0 else Questions(Front(marks)) + if Last(marks).Question? then 1 else 0
  }

  /** The parameter that the code takes for a mark. */
  function ParamOf(params: Params, m: Mark, k: nat): Option<Json> {
    match m
    case Question(_) => params.GetByIndex(k + 1)
    case Named(name, _) => params.GetByName(name)
    case Position(pos, _) => params.GetByIndex(pos)
  }

  /** It is the one that the mark means. */
  lemma ParamIsFilled(params: Params, m: Mark, k: nat, sql: string)
    requires m.span.start <= m.span.end <= |sql|
    ensures match ParamOf(params, m, k)
            case Some(v) => Filled(params, m, k, sql) == SqlText(v)
            case None => Filled(params, m, k, sql) == sql[m.span.start..m.span.end]
  {
  }

  function EditOf(params: Params, m: Mark, k: nat): seq<Edit> {
    match ParamOf(params, m, k)
    case Some(v) => [Edit(m.span, SqlText(v), m.Position?)]
    case None => []
  }

  /** The edits of all marks with a parameter, in text order. */
  function EditsOf(params: Params, marks: seq<Mark>): seq<Edit> {
    if marks == [] then []
    else EditsOf(params, Front(marks)) + EditOf(params, Last(marks), Questions(Front(marks)))
  }

  lemma {:induction false} EditsSpaced(params: Params, marks: seq<Mark>, n: nat)
    requires Ordered(marks, 0, n)
    ensures Spaced(EditsOf(params, marks), n)
    decreases |marks|
  {
    if marks != [] {
      var m := Last(marks);
      assert Ordered(Front(marks), 0, m.span.start);
      EditsSpaced(params, Front(marks), m.span.start);
      var edits := EditsOf(params, Front(marks));
      if ParamOf(params, m, Questions(Front(marks))).Some? {
        assert Front(EditsOf(params, marks)) == edits;
      } else {
        assert EditsOf(params, marks) == edits;
        SpacedMore(edits, m.span.start, n);
      }
    }
  }

  lemma {:induction false} OrderedAppend(marks: seq<Mark>, m: Mark, from: nat, to: nat)
    requires from <= m.span.start < m.span.end <= to && Ordered(marks, from, m.span.start)
    ensures Ordered(marks + [m], from, to)
    ensures marks != [] ==>
              && from <= marks[0].span.start < marks[0].span.end <= m.span.start
              && Ordered(marks[1..], marks[0].span.end, m.span.start)
  {
  }

  lemma {:induction false} BoundAppend(params: Params, marks: seq<Mark>, m: Mark, k: nat, sql: string, at: nat)
    requires at <= m.span.start < m.span.end <= |sql| && Ordered(marks, at, m.span.start)
    ensures Ordered(marks + [m], at, |sql|) && Ordered(marks, at, |sql[..m.span.start]|)
    ensures Bound(params, marks + [m], k, sql, at)
            == Bound(params, marks, k, sql[..m.span.start], at)
               + Filled(params, m, k + Questions(marks), sql) + sql[m.span.end..]
    decreases |marks|
  {
    hide Ordered, Bound, Filled;
    OrderedAppend(marks, m, at, |sql|);
    BoundCons(params, marks + [m], k, sql, at);
    var kept := sql[..m.span.start];
    if marks == [] {
      BoundNil(params, m, k, sql, at);
    } else {
      var first := marks[0];
      var next := if first.Question? then k + 1 else k;
      BoundAppend(params, marks[1..], m, next, sql, first.span.end);
      QuestionsCons(marks);
      BoundCons(params, marks, k, kept, at);
      assert (marks + [m])[1..] == marks[1..] + [m];
      assert kept[at..first.span.start] == sql[at..first.span.start];
      FilledKept(params, first, k, sql, m.span.start);
      Assoc(sql[at..first.span.start] + Filled(params, first, k, sql),
            Bound(params, marks[1..], next, kept, first.span.end),
            Filled(params, m, k + Questions(marks), sql), sql[m.span.end..]);
    }
  }

  lemma BoundNil(params: Params, m: Mark, k: nat, sql: string, at: nat)
    requires at <= m.span.start < m.span.end <= |sql|
    ensures Ordered([], at, m.span.start) && Ordered([m], at, |sql|) && Questions([]) == 0 && [] + [m] == [m]
    ensures Bound(params, [m], k, sql, at)
            == Bound(params, [], k, sql[..m.span.start], at) + Filled(params, m, k, sql) + sql[m.span.end..]
  {
    hide Filled, Bound, Ordered;
    OrderedNone(at, m.span.start);
    assert [m][1..] == [] && [] + [m] == [m];
    OrderedAppend([], m, at, |sql|);
    BoundCons(params, [m], k, sql, at);
    BoundTail(params, if m.Question? then k + 1 else k, sql, m.span.end);
    BoundTail(params, k, sql[..m.span.start], at);
    assert sql[..m.span.start][at..] == sql[at..m.span.start];
  }

  lemma OrderedNone(from: nat, to: nat)
    ensures Ordered([], from, to)
  {
  }

  lemma BoundTail(params: Params, k: nat, sql: string, at: nat)
    requires at <= |sql|
    ensures Ordered([], at, |sql|) && Bound(params, [], k, sql, at) == sql[at..]
  {
  }

  /** A mark is filled alike in a text cut off behind it. */
  lemma FilledKept(params: Params, m: Mark, k: nat, sql: string, cut: nat)
    requires m.span.start <= m.span.end <= cut <= |sql|
    ensures Filled(params, m, k, sql[..cut]) == Filled(params, m, k, sql)
  {
    assert sql[..cut][m.span.start..m.span.end] == sql[m.span.start..m.span.end];
  }

  lemma BoundCons(params: Params, marks: seq<Mark>, k: nat, sql: string, at: nat)
    requires at <= |sql| && Ordered(marks, at, |sql|) && marks != []
    ensures var m := marks[0];
            && at <= m.span.start < m.span.end <= |sql| && Ordered(marks[1..], m.span.end, |sql|)
            && Bound(params, marks, k, sql, at) ==
               sql[at..m.span.start] + Filled(params, m, k, sql)
               + Bound(params, marks[1..], if m.Question? then k + 1 else k, sql, m.span.end)
  {
  }

  lemma Assoc(a: string, b: string, c: string, d: string)
    ensures a + (b + c + d) == a + b + c + d
  {
  }

  lemma {:induction false} QuestionsCons(marks: seq<Mark>)
    requires marks != []
    ensures Questions(marks) == (if marks[0].Question? then 1 else 0) + Questions(marks[1..])
  {
    if |marks| > 1 {
      QuestionsCons(Front(marks));
      assert Front(marks)[1..] == Front(marks[1..]);
    } else {
      assert Front(marks) == [] && marks[1..] == [];
    }
  }

  /** Editing at once, from the right, is the pass from left to right. */
  lemma {:induction false} EditedIsBound(params: Params, marks: seq<Mark>, sql: string)
    requires Ordered(marks, 0, |sql|)
    ensures Spaced(EditsOf(params, marks), |sql|)
    ensures Edited(sql, EditsOf(params, marks)) == Bound(params, marks, 0, sql, 0)
    decreases |marks|
  {
    hide Ordered, Bound, Edited, Spaced, EditsOf, Filled, Questions;
    EditsSpaced(params, marks, |sql|);
    if marks == [] {
      BoundEmpty(params, marks, sql);
    } else {
      var m := Last(marks);
      OrderedFront(marks, |sql|);
      var kept := sql[..m.span.start];
      EditedIsBound(params, Front(marks), kept);
      BoundAppend(params, Front(marks), m, 0, sql, 0);
      assert Front(marks) + [m] == marks;
      EditedLast(params, marks, sql);
    }
  }

  lemma BoundEmpty(params: Params, marks: seq<Mark>, sql: string)
    requires marks == []
    ensures Edited(sql, EditsOf(params, marks)) == Bound(params, marks, 0, sql, 0)
  {
    assert sql[0..] == sql;
  }

  lemma OrderedFront(marks: seq<Mark>, to: nat)
    requires marks != [] && Ordered(marks, 0, to)
    ensures Ordered(Front(marks), 0, Last(marks).span.start)
    ensures Last(marks).span.start < Last(marks).span.end <= to
  {
  }

  /** The last mark, with a parameter or without one. */
  lemma {:induction false} EditedLast(params: Params, marks: seq<Mark>, sql: string)
    requires marks != [] && Ordered(marks, 0, |sql|)
    requires Spaced(EditsOf(params, marks), |sql|)
    requires Spaced(EditsOf(params, Front(marks)), Last(marks).span.start)
    ensures Last(marks).span.start < Last(marks).span.end <= |sql|
    ensures Edited(sql, EditsOf(params, marks))
            == Edited(sql[..Last(marks).span.start], EditsOf(params, Front(marks)))
               + Filled(params, Last(marks), Questions(Front(marks)), sql) + sql[Last(marks).span.end..]
  {
    hide Ordered, SqlText, Questions, ParamOf, Filled;
    var m := Last(marks);
    var k := Questions(Front(marks));
    var edits := EditsOf(params, Front(marks));
    OrderedFront(marks, |sql|);
    ParamIsFilled(params, m, k, sql);
    if ParamOf(params, m, k).Some? {
      assert Front(EditsOf(params, marks)) == edits;
    } else {
      hide Edited, Spaced;
      assert EditsOf(params, marks) == edits;
      EditedUnfilled(sql, m.span, edits);
    }
  }

  lemma EditedUnfilled(sql: string, span: Span, edits: seq<Edit>)
    requires span.start <= span.end <= |sql| && Spaced(edits, span.start) && Spaced(edits, |sql|)
    ensures Edited(sql, edits) == Edited(sql[..span.start], edits) + sql[span.start..span.end] + sql[span.end..]
  {
    hide Edited, Spaced;
    assert sql[..span.start] + sql[span.start..] == sql;
    EditedBefore(sql[..span.start], sql[span.start..], edits);
    assert sql[span.start..] == sql[span.start..span.end] + sql[span.end..];
  }

  // ---------------------------------------------------------------------------
  // What the code does
  // ---------------------------------------------------------------------------

  lemma {:induction false} InsertedOrdered(marks: seq<Mark>, m: Mark, n: nat)
    requires Ordered(marks, 0, n) && m.span.start < m.span.end <= n
    requires forall i :: 0 <= i < |marks| ==> Apart(marks[i], m)
    ensures Ordered(Inserted(marks, m, MarkStart), 0, n)
  {
    hide Ordered;
    if marks != [] && Last(marks).span.start > m.span.start {
      var last := Last(marks);
      var r := Inserted(Front(marks), m, MarkStart);
      OrderedFront(marks, n);
      OrderedUpTo(Front(marks), last.span.start, n);
      InsertedOrdered(Front(marks), m, n);
      assert Apart(last, m);
      forall i | 0 <= i < |r| ensures r[i].span.end <= last.span.start {
        InsertedHas(Front(marks), m, MarkStart, i);
        OrderedEnds(Front(marks), last.span.start);
      }
      OrderedUpTo(r, n, last.span.start);
      OrderedAppend(r, last, 0, n);
    } else {
      OrderedStarts(marks, n);
      forall i | 0 <= i < |marks| ensures marks[i].span.end <= m.span.start {
        assert Apart(marks[i], m);
      }
      OrderedUpTo(marks, n, m.span.start);
      OrderedAppend(marks, m, 0, n);
    }
  }

  lemma OrderedUpTo(marks: seq<Mark>, n: nat, to: nat)
    requires Ordered(marks, 0, n)
    requires n <= to || forall i :: 0 <= i < |marks| ==> marks[i].span.end <= to
    ensures Ordered(marks, 0, to)
  {
  }

  lemma OrderedEnds(marks: seq<Mark>, n: nat)
    requires Ordered(marks, 0, n)
    ensures forall m :: m in marks ==> m.span.end <= n
  {
  }

  lemma OrderedStarts(marks: seq<Mark>, n: nat)
    requires Ordered(marks, 0, n)
    ensures forall i :: 0 <= i < |marks| ==>
              marks[i].span.start < marks[i].span.end && marks[i].span.start <= Last(marks).span.start
  {
    forall i | 0 <= i < |marks|
      ensures marks[i].span.start < marks[i].span.end && marks[i].span.start <= Last(marks).span.start
    {
      if i < |marks| - 1 {
        assert marks[i].span.end <= marks[|marks| - 1].span.start;
      }
    }
  }

  predicate Apart(a: Mark, b: Mark) {
    a.span.end <= b.span.start || b.span.end <= a.span.start
  }

  /** What a syntax tree guarantees of its placeholders, in whatever order. */
  predicate WellPlaced(stmt: seq<Mark>, n: nat) {
    && (forall i :: 0 <= i < |stmt| ==> stmt[i].span.start < stmt[i].span.end <= n)
    && (forall i, j :: 0 <= i < j < |stmt| ==> Apart(stmt[i], stmt[j]))
  }

  lemma {:induction false} SortedHas(stmt: seq<Mark>, i: nat)
    requires i < |SortBy(stmt, MarkStart)|
    ensures SortBy(stmt, MarkStart)[i] in stmt
  {
    if stmt != [] {
      InsertedHas(SortBy(Front(stmt), MarkStart), Last(stmt), MarkStart, i);
      if SortBy(stmt, MarkStart)[i] != Last(stmt) {
        var k :| 0 <= k < |SortBy(Front(stmt), MarkStart)|
                 && SortBy(Front(stmt), MarkStart)[k] == SortBy(stmt, MarkStart)[i];
        SortedHas(Front(stmt), k);
      }
    }
  }

  lemma {:induction false} SortedOrdered(stmt: seq<Mark>, n: nat)
    requires WellPlaced(stmt, n)
    ensures Ordered(SortBy(stmt, MarkStart), 0, n)
  {
    if stmt != [] {
      SortedOrdered(Front(stmt), n);
      var front := SortBy(Front(stmt), MarkStart);
      forall i | 0 <= i < |front| ensures Apart(front[i], Last(stmt)) {
        SortedHas(Front(stmt), i);
        var k :| 0 <= k < |Front(stmt)| && Front(stmt)[k] == front[i];
        assert Apart(stmt[k], stmt[|stmt| - 1]);
      }
      InsertedOrdered(front, Last(stmt), n);
    }
  }

  /** The edits that `?` marks get by their rank are those that the text order gives. */
  lemma {:induction false} IndexEditsAre(params: Params, marks: seq<Mark>)
    requires params.QuestionParams?
    ensures |Chosen(marks, QuestionOf)| == Questions(marks)
    ensures IndexEdits(params, Chosen(marks, QuestionOf)) == Only(EditsOf(params, marks), false)
  {
    hide Only, SqlText;
    OnlyNone();
    if marks != [] {
      IndexEditsAre(params, Front(marks));
      OnlyAppend(EditsOf(params, Front(marks)), EditOf(params, Last(marks), Questions(Front(marks))), false);
      if Last(marks).Question? {
        assert Front(Chosen(marks, QuestionOf)) == Chosen(Front(marks), QuestionOf);
      } else {
        assert Chosen(marks, QuestionOf) == Chosen(Front(marks), QuestionOf);
      }
    }
  }

  lemma {:induction false} NameEditsAre(params: Params, marks: seq<Mark>)
    requires params.NamedParams?
    ensures Chosen(Chosen(marks, NameOf), NameEdit(params)) == Only(EditsOf(params, marks), false)
  {
    hide Only, SqlText;
    OnlyNone();
    if marks != [] {
      NameEditsAre(params, Front(marks));
      OnlyAppend(EditsOf(params, Front(marks)), EditOf(params, Last(marks), Questions(Front(marks))), false);
      if Last(marks).Named? {
        assert Front(Chosen(marks, NameOf)) == Chosen(Front(marks), NameOf);
      } else {
        assert Chosen(marks, NameOf) == Chosen(Front(marks), NameOf);
      }
    }
  }

  lemma {:induction false} ColumnEditsAre(params: Params, marks: seq<Mark>)
    ensures Chosen(Chosen(marks, ColumnOf), ColumnEdit(params)) == Only(EditsOf(params, marks), true)
  {
    hide Only, SqlText;
    OnlyNone();
    if marks != [] {
      ColumnEditsAre(params, Front(marks));
      OnlyAppend(EditsOf(params, Front(marks)), EditOf(params, Last(marks), Questions(Front(marks))), true);
      if Last(marks).Position? {
        assert Front(Chosen(marks, ColumnOf)) == Chosen(Front(marks), ColumnOf);
      } else {
        assert Chosen(marks, ColumnOf) == Chosen(Front(marks), ColumnOf);
      }
    }
  }

  lemma OnlyAppend(edits: seq<Edit>, more: seq<Edit>, late: bool)
    requires |more| <= 1
    ensures Only(edits + more, late) == Only(edits, late) + if more != [] && more[0].late == late then more else []
  {
    if more == [] {
      assert edits + more == edits;
    } else {
      assert Front(edits + more) == edits && Last(edits + more) == more[0] && more == [more[0]];
    }
  }

  lemma {:induction false} SpacedSorted(edits: seq<Edit>, n: nat)
    requires Spaced(edits, n)
    ensures Sorted(edits, EditStart) && UpTo(edits, EditStart, n)
    decreases |edits|
  {
    if edits != [] {
      SpacedSorted(Front(edits), Last(edits).span.start);
      forall i | 0 <= i < |edits| ensures EditStart(edits[i]) <= EditStart(Last(edits)) {
        if i < |edits| - 1 {
          assert edits[i] == Front(edits)[i];
        }
      }
    }
  }

  lemma {:induction false} NoIndexEdits(params: Params, spans: seq<Span>)
    requires params.NamedParams?
    ensures IndexEdits(params, spans) == []
  {
    if spans != [] {
      NoIndexEdits(params, Front(spans));
    }
  }

  lemma {:induction false} NoNameEdits(params: Params, names: seq<(string, Span)>)
    requires params.QuestionParams?
    ensures Chosen(names, NameEdit(params)) == []
  {
    if names != [] {
      NoNameEdits(params, Front(names));
    }
  }

  function NameStart(n: (string, Span)): nat {
    n.1.start
  }

  /** The results that the first pass replaces, sorted. */
  lemma {:induction false} FirstEdits(params: Params, stmt: seq<Mark>, n: nat)
    requires WellPlaced(stmt, n)
    ensures var spans := SortBy(Chosen(stmt, QuestionOf), SpanStart);
            var results := IndexEdits(params, spans) + Chosen(Chosen(stmt, NameOf), NameEdit(params));
            SortBy(results, EditStart) == Only(EditsOf(params, SortBy(stmt, MarkStart)), false)
  {
    hide SortBy, Chosen, IndexEdits, NameEdit, EditsOf, Only, WellPlaced;
    var marks := SortBy(stmt, MarkStart);
    match params
    case QuestionParams(_) =>
      SortChosen(stmt, QuestionOf, MarkStart, SpanStart);
      IndexEditsAre(params, marks);
      NoNameEdits(params, Chosen(stmt, NameOf));
      SortedOrdered(stmt, n);
      EditsSpaced(params, marks, n);
      var edits := Only(EditsOf(params, marks), false);
      OnlySpaced(EditsOf(params, marks), false, n, n);
      SpacedSorted(edits, n);
      SortedStays(edits, EditStart);
      assert edits + [] == edits;
    case NamedParams(_) =>
      NoIndexEdits(params, SortBy(Chosen(stmt, QuestionOf), SpanStart));
      var names := Chosen(stmt, NameOf);
      SortChosen(stmt, NameOf, MarkStart, NameStart);
      NameKeeps(params);
      SortChosen(names, NameEdit(params), NameStart, EditStart);
      NameEditsAre(params, marks);
      assert [] + Chosen(names, NameEdit(params)) == Chosen(names, NameEdit(params));
  }

  lemma NameKeeps(params: Params)
    ensures KeepsKey(NameEdit(params), NameStart, EditStart)
  {
  }

  /** The code is two passes over the edits in text order, in whatever order the
  placeholders are visited. */
  lemma {:induction false} CodeIsTwoPasses(params: Params, stmt: seq<Mark>, sql: string)
    requires WellPlaced(stmt, |sql|)
    ensures ReplaceSql(params, stmt, sql) == TwoPasses(sql, EditsOf(params, SortBy(stmt, MarkStart)))
  {
    hide SortBy, Chosen, IndexEdits, NameEdit, ColumnEdit, EditsOf, Only, WellPlaced, ReplaceAll;
    FirstEdits(params, stmt, |sql|);
    SortChosen(stmt, ColumnOf, MarkStart, ColumnStart);
    ColumnEditsAre(params, SortBy(stmt, MarkStart));
  }

  // ---------------------------------------------------------------------------
  // When the two families of placeholders get along
  // ---------------------------------------------------------------------------

  /** No early edit that changes the length of the text stands before a late one. */
  predicate StaysPut(edits: seq<Edit>) {
    forall i, j :: 0 <= i < j < |edits| && !edits[i].late && edits[j].late ==> SameLength(edits[i])
  }

  predicate SameLength(e: Edit) {
    |e.value| == e.span.end - e.span.start
  }

  lemma {:induction false} ShiftZero(edits: seq<Edit>)
    ensures (forall i :: 0 <= i < |edits| && !edits[i].late ==> SameLength(edits[i])) ==> Shift(edits) == 0
    ensures NeverShrinks(edits) && Shift(edits) == 0 ==>
              forall i :: 0 <= i < |edits| && !edits[i].late ==> SameLength(edits[i])
    decreases |edits|
  {
    if edits != [] {
      ShiftZero(Front(edits));
      if NeverShrinks(edits) {
        ShiftGrows(Front(edits));
        if Shift(edits) == 0 {
          forall i | 0 <= i < |edits| && !edits[i].late ensures SameLength(edits[i]) {
            if i < |edits| - 1 {
              assert edits[i] == Front(edits)[i];
            }
          }
        }
      }
    }
  }

  lemma {:induction false} PutIsAligned(edits: seq<Edit>)
    ensures StaysPut(edits) ==> Aligned(edits)
    ensures NeverShrinks(edits) && Aligned(edits) ==> StaysPut(edits)
    decreases |edits|
  {
    if edits != [] {
      var front := Front(edits);
      PutIsAligned(front);
      ShiftZero(front);
      if StaysPut(edits) {
        assert StaysPut(front);
        if Last(edits).late {
          forall i | 0 <= i < |front| && !front[i].late ensures SameLength(front[i]) {
            assert front[i] == edits[i] && edits[|edits| - 1].late;
          }
        }
      }
      if NeverShrinks(edits) && Aligned(edits) {
        forall i, j | 0 <= i < j < |edits| && !edits[i].late && edits[j].late ensures SameLength(edits[i]) {
          assert edits[i] == front[i];
          if j < |edits| - 1 {
            assert edits[j] == front[j];
          }
        }
      }
    }
  }

  /** Where nothing is moved, the statement is bound as one pass from left to right binds
  it: the n-th `?` of the text gets the n-th parameter, and a placeholder without a
  parameter stays as it is. */
  lemma {:induction false} BoundWhenPut(params: Params, stmt: seq<Mark>, sql: string)
    requires WellPlaced(stmt, |sql|) && StaysPut(EditsOf(params, SortBy(stmt, MarkStart)))
    ensures var marks := SortBy(stmt, MarkStart);
            && Ordered(marks, 0, |sql|)
            && ReplaceSql(params, stmt, sql) == Ok(Bound(params, marks, 0, sql, 0))
  {
    hide SortBy, EditsOf, ReplaceSql, Bound, Ordered, StaysPut, WellPlaced;
    var marks := SortBy(stmt, MarkStart);
    SortedOrdered(stmt, |sql|);
    CodeIsTwoPasses(params, stmt, sql);
    EditsSpaced(params, marks, |sql|);
    PutIsAligned(EditsOf(params, marks));
    AlignedPasses(sql, EditsOf(params, marks));
    EditedIsBound(params, marks, sql);
  }

  /** One family: no `$N`, or nothing but `$N`, or named parameters, which `$N` ignores. */
  predicate OneFamily(params: Params, marks: seq<Mark>) {
    || params.NamedParams?
    || (forall i :: 0 <= i < |marks| ==> !marks[i].Position?)
    || (forall i :: 0 <= i < |marks| ==> marks[i].Position?)
  }

  lemma {:induction false} OneFamilyEdits(params: Params, marks: seq<Mark>)
    requires OneFamily(params, marks)
    ensures forall i, j :: 0 <= i < j < |EditsOf(params, marks)| ==>
              EditsOf(params, marks)[i].late == EditsOf(params, marks)[j].late
    ensures params.NamedParams? || (forall i :: 0 <= i < |marks| ==> !marks[i].Position?) ==>
              forall i :: 0 <= i < |EditsOf(params, marks)| ==> !EditsOf(params, marks)[i].late
    ensures params.QuestionParams? && (forall i :: 0 <= i < |marks| ==> marks[i].Position?) ==>
              forall i :: 0 <= i < |EditsOf(params, marks)| ==> EditsOf(params, marks)[i].late
  {
    if marks != [] {
      OneFamilyEdits(params, Front(marks));
    }
  }

  /** A statement with one family of placeholders is always bound as it should be. */
  lemma {:induction false} OneFamilyBound(params: Params, stmt: seq<Mark>, sql: string)
    requires WellPlaced(stmt, |sql|) && OneFamily(params, stmt)
    ensures var marks := SortBy(stmt, MarkStart);
            && Ordered(marks, 0, |sql|)
            && ReplaceSql(params, stmt, sql) == Ok(Bound(params, marks, 0, sql, 0))
  {
    hide SortBy, EditsOf, ReplaceSql, Bound, Ordered, WellPlaced;
    var marks := SortBy(stmt, MarkStart);
    forall i | 0 <= i < |marks| ensures marks[i] in stmt {
      SortedHas(stmt, i);
    }
    assert OneFamily(params, marks);
    OneFamilyEdits(params, marks);
    BoundWhenPut(params, stmt, sql);
  }

  /** What the tokens of a statement are: a question mark is one character; a position is
  `$` and digits, and in front of it is nothing, or a character that separates and belongs
  to no other placeholder. */
  predicate Tokens(marks: seq<Mark>, sql: string) {
    && ShortQuestions(marks)
    && (forall m :: m in marks && m.Position? ==> PositionToken(m, sql))
    && (forall m, n :: m in marks && n in marks && n.Position? ==> m.span.end != n.span.start)
  }

  predicate PositionToken(m: Mark, sql: string) {
    && m.span.start < m.span.end <= |sql| && IsPosition(sql[m.span.start..m.span.end])
    && (m.span.start > 0 ==> Separates(sql[m.span.start - 1]))
  }

  predicate ShortQuestions(marks: seq<Mark>) {
    forall i :: 0 <= i < |marks| && marks[i].Question? ==> marks[i].span.end == marks[i].span.start + 1
  }

  lemma {:induction false} EditsNeverShrink(params: Params, marks: seq<Mark>)
    requires params.QuestionParams? && ShortQuestions(marks)
    ensures NeverShrinks(EditsOf(params, marks))
  {
    if marks != [] {
      hide SqlText;
      var front := EditsOf(params, Front(marks));
      EditsNeverShrink(params, Front(marks));
      var m := Last(marks);
      if ParamOf(params, m, Questions(Front(marks))).Some? {
        assert Front(EditsOf(params, marks)) == front;
        assert Last(EditsOf(params, marks)).value != "";
      } else {
        assert EditsOf(params, marks) == front;
      }
    }
  }

  /** Only a number ends with a digit, and it has no `$`. */
  lemma SqlTextIsPlain(v: Json)
    ensures PlainNumber(SqlText(v))
  {
    match v
    case Number(digits) => assert forall i :: 0 <= i < |digits| ==> IsNumberChar(digits[i]);
    case Str(s) => assert Last(QuoteSqlString(s)) == '\'';
    case Array(items) => assert Last("[" + SqlTexts(items) + "]") == ']';
    case Object(text) => assert Last(QuoteSqlString(text) + "::JSON") == 'N';
    case _ =>
  }

  /** The replacements of positions stand apart, as their tokens do. */
  lemma {:induction false} EditsStandApart(params: Params, marks: seq<Mark>, sql: string)
    requires Ordered(marks, 0, |sql|) && Tokens(marks, sql)
    ensures Spaced(EditsOf(params, marks), |sql|) && StandsApart(sql, EditsOf(params, marks))
    decreases |marks|
  {
    hide SqlText, PlainNumber, IsPosition, Separates, Ordered, StandsApart, Spaced, Tokens, EditsOf;
    EditsSpaced(params, marks, |sql|);
    EditsOfLast(params, marks);
    if marks == [] {
      NoneApart(sql, EditsOf(params, marks));
    } else {
      var m := Last(marks);
      OrderedFront(marks, |sql|);
      var front, kept := Front(marks), sql[..m.span.start];
      TokensFront(marks, sql);
      EditsStandApart(params, front, kept);
      var edits := EditsOf(params, front);
      match ParamOf(params, m, Questions(front))
      case Some(v) =>
        SqlTextIsPlain(v);
        if m.Position? && m.span.start > 0 {
          GapBefore(marks, sql);
          EditsSpaced(params, front, m.span.start - 1);
        }
        ApartAppend(sql, edits, Edit(m.span, SqlText(v), m.Position?));
      case None =>
        assert EditsOf(params, marks) == edits;
        ApartInWhole(sql, m.span.start, edits);
    }
  }

  lemma EditsOfLast(params: Params, marks: seq<Mark>)
    ensures marks == [] ==> EditsOf(params, marks) == []
    ensures marks != [] ==>
              EditsOf(params, marks) ==
              EditsOf(params, Front(marks)) + EditOf(params, Last(marks), Questions(Front(marks)))
  {
  }

  lemma ApartInWhole(sql: string, cut: nat, edits: seq<Edit>)
    requires cut <= |sql| && Spaced(edits, |sql[..cut]|) && Spaced(edits, |sql|) && StandsApart(sql[..cut], edits)
    ensures StandsApart(sql, edits)
  {
    hide Spaced, StandsApart;
    assert sql[..cut] + sql[cut..] == sql;
    ApartBefore(sql[..cut], sql[cut..], edits);
  }

  lemma NoneApart(sql: string, edits: seq<Edit>)
    requires edits == []
    ensures Spaced(edits, |sql|) && StandsApart(sql, edits)
  {
  }

  lemma ApartAppend(sql: string, edits: seq<Edit>, e: Edit)
    requires e.span.start < e.span.end <= |sql| && Spaced(edits, |sql[..e.span.start]|)
    requires StandsApart(sql[..e.span.start], edits)
    requires e.late ==> IsPosition(sql[e.span.start..e.span.end]) && PlainNumber(e.value)
    requires e.late && e.span.start > 0 ==> Separates(sql[e.span.start - 1]) && Spaced(edits, e.span.start - 1)
    ensures Spaced(edits + [e], |sql|) && StandsApart(sql, edits + [e])
  {
    hide IsPosition, PlainNumber, Separates;
    assert Front(edits + [e]) == edits && Last(edits + [e]) == e;
  }

  lemma TokensFront(marks: seq<Mark>, sql: string)
    requires marks != [] && Ordered(marks, 0, |sql|) && Tokens(marks, sql)
    ensures Tokens(Front(marks), sql[..Last(marks).span.start])
    ensures Last(marks).Position? ==> PositionToken(Last(marks), sql)
  {
    hide IsPosition, Separates, Ordered;
    assert Last(marks) in marks;
    var cut := Last(marks).span.start;
    OrderedFront(marks, |sql|);
    OrderedEnds(Front(marks), cut);
    forall m | m in Front(marks) && m.Position? ensures PositionToken(m, sql[..cut]) {
      assert m in marks;
      assert sql[..cut][m.span.start..m.span.end] == sql[m.span.start..m.span.end];
    }
  }

  /** A position token leaves a character between it and the placeholders before it. */
  lemma GapBefore(marks: seq<Mark>, sql: string)
    requires marks != [] && Ordered(marks, 0, |sql|) && Tokens(marks, sql)
    requires Last(marks).Position? && Last(marks).span.start > 0
    ensures Ordered(Front(marks), 0, Last(marks).span.start - 1)
  {
    forall i | 0 <= i < |marks| - 1 ensures marks[i].span.end <= Last(marks).span.start - 1 {
      assert marks[i].span.end <= marks[|marks| - 1].span.start;
      assert marks[i] in marks && Last(marks) in marks;
    }
  }

  lemma {:induction false} ApartBefore(p: string, q: string, edits: seq<Edit>)
    requires Spaced(edits, |p|) && Spaced(edits, |p + q|) && StandsApart(p, edits)
    ensures StandsApart(p + q, edits)
    decreases |edits|
  {
    if edits != [] {
      var e := Last(edits);
      assert (p + q)[..e.span.start] == p[..e.span.start];
      assert (p + q)[e.span.start..e.span.end] == p[e.span.start..e.span.end];
    }
  }

  /** The exact condition. A statement is bound as it should be if and only if no `?` whose
  parameter is longer than one character stands before a `$N` that has a parameter. */
  lemma {:induction false} BoundIff(params: Params, stmt: seq<Mark>, sql: string)
    requires WellPlaced(stmt, |sql|) && Tokens(stmt, sql)
    ensures var marks := SortBy(stmt, MarkStart);
            && Ordered(marks, 0, |sql|)
            && (ReplaceSql(params, stmt, sql) == Ok(Bound(params, marks, 0, sql, 0))
                <==> StaysPut(EditsOf(params, marks)))
  {
    hide SortBy, EditsOf, ReplaceSql, Bound, Ordered, WellPlaced, StaysPut, StandsApart, PositionToken;
    var marks := SortBy(stmt, MarkStart);
    SortedOrdered(stmt, |sql|);
    match params
    case NamedParams(_) => NamedStaysPut(params, stmt, sql);
    case QuestionParams(_) =>
      SortedTokens(stmt, sql);
      var edits := EditsOf(params, marks);
      EditsNeverShrink(params, marks);
      EditsStandApart(params, marks, sql);
      CodeIsTwoPasses(params, stmt, sql);
      EditedIsBound(params, marks, sql);
      PutIsAligned(edits);
      PassesIff(sql, edits);
  }

  lemma SortedTokens(stmt: seq<Mark>, sql: string)
    requires Tokens(stmt, sql)
    ensures Tokens(SortBy(stmt, MarkStart), sql)
  {
    hide SortBy, PositionToken;
    var marks := SortBy(stmt, MarkStart);
    forall m | m in marks ensures m in stmt {
      var i :| 0 <= i < |marks| && marks[i] == m;
      SortedHas(stmt, i);
    }
    forall i | 0 <= i < |marks| && marks[i].Question? ensures marks[i].span.end == marks[i].span.start + 1 {
      assert marks[i] in marks && marks[i] in stmt;
    }
  }

  lemma {:induction false} NamedStaysPut(params: Params, stmt: seq<Mark>, sql: string)
    requires WellPlaced(stmt, |sql|) && params.NamedParams?
    ensures var marks := SortBy(stmt, MarkStart);
            && Ordered(marks, 0, |sql|) && StaysPut(EditsOf(params, marks))
            && ReplaceSql(params, stmt, sql) == Ok(Bound(params, marks, 0, sql, 0))
  {
    hide SortBy, EditsOf, ReplaceSql, Bound, Ordered, WellPlaced;
    OneFamilyEdits(params, SortBy(stmt, MarkStart));
    OneFamilyBound(params, stmt, sql);
  }

  /** A statement with both families of placeholders. */
  const MIXED := "SELECT ?, $1"

  /** A statement with both families that is not: the offsets of the second pass are those
  of the text before the first. */
  lemma {:induction false} MixedFamiliesMisplaced()
    ensures var params := QuestionParams([Number("12")]);
            var stmt := [Question(Span(7, 8)), Position(1, Span(10, 12))];
            var marks := SortBy(stmt, MarkStart);
            && WellPlaced(stmt, |MIXED|) && Ordered(marks, 0, |MIXED|)
            && Bound(params, marks, 0, MIXED, 0) == "SELECT 12, 12"
            && ReplaceSql(params, stmt, MIXED) == Ok("SELECT 12,121")
  {
    hide ReplaceSql, Bound, EditsOf, TwoPasses, SortBy, Ordered, WellPlaced;
    var params := QuestionParams([Number("12")]);
    var q, d := Question(Span(7, 8)), Position(1, Span(10, 12));
    MixedSorted(q, d);
    CodeIsTwoPasses(params, [q, d], MIXED);
    MixedEdits(params, q, d);
    MixedPasses();
    MixedBound(params, q, d);
  }

  lemma MixedSorted(q: Mark, d: Mark)
    requires q == Question(Span(7, 8)) && d == Position(1, Span(10, 12))
    ensures SortBy([q, d], MarkStart) == [q, d] && |MIXED| == 12 && WellPlaced([q, d], 12)
  {
    assert Front([q, d]) == [q] && Last([q, d]) == d && Front([q]) == [];
    assert Sorted([q], MarkStart);
    SortedStays([q, d], MarkStart);
  }

  lemma MixedEdits(params: Params, q: Mark, d: Mark)
    requires params == QuestionParams([Number("12")])
    requires q == Question(Span(7, 8)) && d == Position(1, Span(10, 12))
    ensures EditsOf(params, [q, d]) == [Edit(Span(7, 8), "12", false), Edit(Span(10, 12), "12", true)]
  {
    assert Front([q, d]) == [q] && Front([q]) == [];
    assert EditsOf(params, [q]) == [Edit(Span(7, 8), "12", false)];
  }

  lemma MixedPasses()
    ensures TwoPasses(MIXED, [Edit(Span(7, 8), "12", false), Edit(Span(10, 12), "12", true)]) == Ok("SELECT 12,121")
  {
    hide ReplaceAll, Only;
    var early, late := Edit(Span(7, 8), "12", false), Edit(Span(10, 12), "12", true);
    OnlyAppend([early], [late], false);
    OnlyAppend([early], [late], true);
    OnlyAppend([], [early], false);
    OnlyAppend([], [early], true);
    OnlyNone();
    assert [early] + [late] == [early, late] && [] + [early] == [early] && [] + [late] == [late];
    ReplaceOne(MIXED, early);
    ReplaceOne("SELECT 12, $1", late);
    assert |MIXED| == 12 && |"SELECT 12, $1"| == 13;
    assert MIXED[..7] + "12" + MIXED[8..] == "SELECT 12, $1";
    assert "SELECT 12, $1"[..10] + "12" + "SELECT 12, $1"[12..] == "SELECT 12,121";
    assert Only([early, late], false) == [early] && Only([early, late], true) == [late];
  }

  lemma OnlyNone()
    ensures Only([], false) == [] && Only([], true) == []
  {
  }

  lemma ReplaceOne(s: string, e: Edit)
    ensures ReplaceAll(s, [e]) == ReplaceRange(s, e.span, e.value)
  {
    assert Front([e]) == [] && Last([e]) == e;
  }

  lemma MixedBound(params: Params, q: Mark, d: Mark)
    requires params == QuestionParams([Number("12")])
    requires q == Question(Span(7, 8)) && d == Position(1, Span(10, 12))
    ensures Ordered([q, d], 0, |MIXED|) && Bound(params, [q, d], 0, MIXED, 0) == "SELECT 12, 12"
  {
    hide Bound, Filled;
    var sql := MIXED;
    assert [q, d][1..] == [d];
    MixedFilled(params, q, d);
    MixedTail(params, d);
    BoundCons(params, [q, d], 0, sql, 0);
    assert sql[0..7] + "12" + ", 12" == "SELECT 12, 12";
  }

  lemma MixedTail(params: Params, d: Mark)
    requires params == QuestionParams([Number("12")]) && d == Position(1, Span(10, 12))
    ensures |MIXED| == 12 && Ordered([d], 8, 12) && Bound(params, [d], 1, MIXED, 8) == ", 12"
  {
    hide Bound, Filled;
    var sql := MIXED;
    assert [d][1..] == [];
    MixedFilled(params, Question(Span(7, 8)), d);
    BoundCons(params, [d], 1, sql, 8);
    BoundTail(params, 1, sql, 12);
    assert sql[8] == ',' && sql[9] == ' ' && sql[8..10] == ", ";
    assert ", " + "12" + sql[12..] == ", 12";
  }

  lemma MixedFilled(params: Params, q: Mark, d: Mark)
    requires params == QuestionParams([Number("12")])
    requires q == Question(Span(7, 8)) && d == Position(1, Span(10, 12))
    ensures |MIXED| == 12 && Filled(params, q, 0, MIXED) == "12" && Filled(params, d, 1, MIXED) == "12"
  {
  }

  // ---------------------------------------------------------------------------
  // The visitor as the source holds it
  // ---------------------------------------------------------------------------

  class PlaceholderVisitor {
    var placeholders: seq<Span>
    var columnPositions: seq<(nat, Span)>
    var names: seq<(string, Span)>

    constructor ()
      ensures placeholders == [] && columnPositions == [] && names == []
    {
      placeholders, columnPositions, names := [], [], [];
    }

    /** Walks over the statement. */
    method Drive(stmt: seq<Mark>)
      modifies this
      ensures placeholders == old(placeholders) + Chosen(stmt, QuestionOf)
      ensures columnPositions == old(columnPositions) + Chosen(stmt, ColumnOf)
      ensures names == old(names) + Chosen(stmt, NameOf)
    {
      hide Chosen;
      ChosenOfNone(QuestionOf);
      ChosenOfNone(NameOf);
      ChosenOfNone(ColumnOf);
      for i := 0 to |stmt|
        invariant placeholders == old(placeholders) + Chosen(stmt[..i], QuestionOf)
        invariant columnPositions == old(columnPositions) + Chosen(stmt[..i], ColumnOf)
        invariant names == old(names) + Chosen(stmt[..i], NameOf)
      {
        assert stmt[..i + 1] == stmt[..i] + [stmt[i]];
        ChosenOne(stmt[..i], stmt[i], QuestionOf);
        ChosenOne(stmt[..i], stmt[i], NameOf);
        ChosenOne(stmt[..i], stmt[i], ColumnOf);
        match stmt[i]
        case Question(span) => placeholders := placeholders + [span];
        case Named(name, span) => names := names + [(name, span)];
        case Position(pos, span) => columnPositions := columnPositions + [(pos, span)];
      }
      assert stmt[..|stmt|] == stmt;
    }

    method HasDollarPositions(stmt: seq<Mark>) returns (r: bool)
      modifies this
      ensures old(columnPositions) == [] ==> (r <==> exists i :: 0 <= i < |stmt| && stmt[i].Position?)
    {
      Drive(stmt);
      ChosenNone(stmt);
      r := columnPositions != [];
    }

    method ReplaceSqlText(params: Params, stmt: seq<Mark>, text: string) returns (r: Result<string>)
      modifies this
      ensures r == Replaced(params, old(placeholders) + Chosen(stmt, QuestionOf), old(names) + Chosen(stmt, NameOf),
                            old(columnPositions) + Chosen(stmt, ColumnOf), text)
      ensures old(placeholders) == [] && old(names) == [] && old(columnPositions) == [] ==>
                r == ReplaceSql(params, stmt, text)
    {
      Drive(stmt);
      ghost var spans, columns, named := placeholders, columnPositions, names;
      assert [] + Chosen(stmt, QuestionOf) == Chosen(stmt, QuestionOf);
      assert [] + Chosen(stmt, NameOf) == Chosen(stmt, NameOf);
      assert [] + Chosen(stmt, ColumnOf) == Chosen(stmt, ColumnOf);
      placeholders := SortBy(placeholders, SpanStart);
      var results := Results(params);
      results := SortBy(results, EditStart);
      var sql := ReplaceFromRight(text, results);
      if sql.Err? {
        return sql;
      }
      columnPositions := SortBy(columnPositions, ColumnStart);
      r := ReplaceColumns(params, sql.value);
    }

    method Results(params: Params) returns (results: seq<Edit>)
      ensures results == IndexEdits(params, placeholders) + Chosen(names, NameEdit(params))
    {
      results := [];
      for i := 0 to |placeholders|
        invariant results == IndexEdits(params, placeholders[..i])
      {
        assert Front(placeholders[..i + 1]) == placeholders[..i] && Last(placeholders[..i + 1]) == placeholders[i];
        match params.GetByIndex(i + 1)
        case Some(v) => results := results + [Edit(placeholders[i], SqlText(v), false)];
        case None =>
      }
      assert placeholders[..|placeholders|] == placeholders;
      ghost var indexed := results;
      for i := 0 to |names|
        invariant results == indexed + Chosen(names[..i], NameEdit(params))
      {
        assert Front(names[..i + 1]) == names[..i] && Last(names[..i + 1]) == names[i];
        match params.GetByName(names[i].0)
        case Some(v) => results := results + [Edit(names[i].1, SqlText(v), false)];
        case None =>
      }
      assert names[..|names|] == names;
    }

    /** The second loop: the columns from right to left. */
    method ReplaceColumns(params: Params, text: string) returns (r: Result<string>)
      ensures r == ReplaceAll(text, Chosen(columnPositions, ColumnEdit(params)))
    {
      var sql := text;
      var i := |columnPositions|;
      assert columnPositions[..i] == columnPositions;
      while i > 0
        invariant 0 <= i <= |columnPositions|
        invariant ReplaceAll(sql, Chosen(columnPositions[..i], ColumnEdit(params)))
                  == ReplaceAll(text, Chosen(columnPositions, ColumnEdit(params)))
      {
        ghost var edits := Chosen(columnPositions[..i], ColumnEdit(params));
        i := i - 1;
        assert Front(columnPositions[..i + 1]) == columnPositions[..i];
        match params.GetByIndex(columnPositions[i].0)
        case Some(v) =>
          assert Front(edits) == Chosen(columnPositions[..i], ColumnEdit(params));
          var next := ReplaceRange(sql, columnPositions[i].1, SqlText(v));
          if next.Err? {
            return next;
          }
          sql := next.value;
        case None =>
          assert edits == Chosen(columnPositions[..i], ColumnEdit(params));
      }
      r := Ok(sql);
    }
  }

  /** The first loop: the results from right to left. */
  method ReplaceFromRight(text: string, results: seq<Edit>) returns (r: Result<string>)
    ensures r == ReplaceAll(text, results)
  {
    var sql := text;
    var i := |results|;
    assert results[..i] == results;
    while i > 0
      invariant 0 <= i <= |results|
      invariant ReplaceAll(sql, results[..i]) == ReplaceAll(text, results)
    {
      i := i - 1;
      assert Front(results[..i + 1]) == results[..i] && Last(results[..i + 1]) == results[i];
      var next := ReplaceRange(sql, results[i].span, results[i].value);
      if next.Err? {
        return next;
      }
      sql := next.value;
    }
    r := Ok(sql);
  }

  lemma ChosenOne<B>(stmt: seq<Mark>, m: Mark, f: Mark -> Option<B>)
    ensures Chosen(stmt + [m], f) == Chosen(stmt, f) + if f(m).Some? then [f(m).value] else []
  {
    assert Front(stmt + [m]) == stmt;
  }

  lemma ChosenOfNone<B>(f: Mark -> Option<B>)
    ensures Chosen([], f) == []
  {
  }

  lemma {:induction false} ChosenNone(stmt: seq<Mark>)
    ensures Chosen(stmt, ColumnOf) == [] <==> forall i :: 0 <= i < |stmt| ==> !stmt[i].Position?
  {
    if stmt != [] {
      ChosenNone(Front(stmt));
      assert forall i :: 0 <= i < |stmt| - 1 ==> stmt[i] == Front(stmt)[i];
    }
  }
}
