/** Replacing spans of a text: `replace_range` applied from right to left, in one pass and
in two (`driver/src/placeholder.rs`). */
module TextEdits {
  import opened Digits
  import opened Results
  import opened Sorting

  datatype Span = Span(start: nat, end: nat)

  /** A replacement; the late ones belong to the second pass. */
  datatype Edit = Edit(span: Span, value: string, late: bool)

  /** `String::replace_range`, which panics out of range. */
  function ReplaceRange(s: string, span: Span, value: string): Result<string> {
    if span.start <= span.end <= |s| then Ok(s[..span.start] + value + s[span.end..]) else Err(Panicked)
  }

  /** The edits applied from the last to the first, each to the text as it has become. */
  function ReplaceAll(s: string, edits: seq<Edit>): Result<string>
    decreases |edits|
  {
    if edits == [] then Ok(s)
    else
      var next :- ReplaceRange(s, Last(edits).span, Last(edits).value);
      ReplaceAll(next, Front(edits))
  }

  /** All edits at once, in a text whose spans are those of `s`. */
  function Edited(s: string, edits: seq<Edit>): string
    requires Spaced(edits, |s|)
    decreases |edits|
  {
    if edits == [] then s
    else
      var e := Last(edits);
      Edited(s[..e.span.start], Front(edits)) + e.value + s[e.span.end..]
  }

  /** Spans that are not empty, do not overlap, come in text order and end by `n`. */
  predicate Spaced(edits: seq<Edit>, n: nat)
    decreases |edits|
  {
    edits == [] || (Last(edits).span.start < Last(edits).span.end <= n && Spaced(Front(edits), Last(edits).span.start))
  }

  function Only(edits: seq<Edit>, late: bool): seq<Edit> {
    if edits == [] then []
    else Only(Front(edits), late) + if Last(edits).late == late then [Last(edits)] else []
  }

  lemma {:induction false} OnlySpaced(edits: seq<Edit>, late: bool, n: nat, m: nat)
    requires Spaced(edits, n) && n <= m
    ensures Spaced(Only(edits, late), m)
    decreases |edits|
  {
    if edits != [] {
      if Last(edits).late == late {
        OnlySpaced(Front(edits), late, Last(edits).span.start, Last(edits).span.start);
        assert Front(Only(edits, late)) == Only(Front(edits), late);
      } else {
        OnlySpaced(Front(edits), late, Last(edits).span.start, m);
        assert Only(edits, late) == Only(Front(edits), late);
      }
    }
  }

  // ---------------------------------------------------------------------------
  // One pass
  // ---------------------------------------------------------------------------

  /** Edits that end within `p` leave what follows it as it is. */
  lemma {:induction false} ReplaceBefore(p: string, q: string, edits: seq<Edit>)
    requires Spaced(edits, |p|)
    ensures ReplaceAll(p, edits).Ok?
    ensures ReplaceAll(p + q, edits) == Ok(ReplaceAll(p, edits).value + q)
    decreases |edits|
  {
    if edits != [] {
      var e := Last(edits);
      var kept := p[..e.span.start];
      var tail := e.value + p[e.span.end..];
      ReplaceBefore(kept, tail, Front(edits));
      ReplaceBefore(kept, tail + q, Front(edits));
      RangeBefore(p, q, e.span, e.value);
      var r := ReplaceAll(kept, Front(edits)).value;
      assert r + (tail + q) == r + tail + q;
    }
  }

  lemma {:induction false} RangeBefore(p: string, q: string, span: Span, value: string)
    requires span.start <= span.end <= |p|
    ensures ReplaceRange(p, span, value) == Ok(p[..span.start] + (value + p[span.end..]))
    ensures ReplaceRange(p + q, span, value) == Ok(p[..span.start] + (value + p[span.end..] + q))
  {
    assert p[..span.start] + value + p[span.end..] == p[..span.start] + (value + p[span.end..]);
    assert (p + q)[..span.start] == p[..span.start] && (p + q)[span.end..] == p[span.end..] + q;
    assert p[..span.start] + value + (p[span.end..] + q) == p[..span.start] + (value + p[span.end..] + q);
  }

  /** An edit outside of the text is a panic, and nothing else goes wrong. */
  lemma {:induction false} OutOfRangePanics(s: string, edits: seq<Edit>)
    ensures ReplaceAll(s, edits).Ok? || ReplaceAll(s, edits) == Err(Panicked)
    ensures edits != [] && Last(edits).span.end > |s| ==> ReplaceAll(s, edits) == Err(Panicked)
    decreases |edits|
  {
    if edits != [] {
      var next := ReplaceRange(s, Last(edits).span, Last(edits).value);
      if next.Ok? {
        OutOfRangePanics(next.value, Front(edits));
      }
    }
  }

  /** Replacing in place from right to left is replacing all at once. */
  lemma {:induction false} RightToLeft(s: string, edits: seq<Edit>)
    requires Spaced(edits, |s|)
    ensures ReplaceAll(s, edits) == Ok(Edited(s, edits))
    decreases |edits|
  {
    if edits != [] {
      var e := Last(edits);
      var kept := s[..e.span.start];
      RangeBefore(s, "", e.span, e.value);
      ReplaceBefore(kept, e.value + s[e.span.end..], Front(edits));
      RightToLeft(kept, Front(edits));
      assert Edited(kept, Front(edits)) + (e.value + s[e.span.end..])
             == Edited(kept, Front(edits)) + e.value + s[e.span.end..];
    }
  }

  // ---------------------------------------------------------------------------
  // Two passes
  // ---------------------------------------------------------------------------

  /** By how much the early edits move what follows them. */
  function Shift(edits: seq<Edit>): int {
    if edits == [] then 0
    else Shift(Front(edits)) +
         if Last(edits).late then 0 else |Last(edits).value| - (Last(edits).span.end - Last(edits).span.start)
  }

  /** No late edit has been moved by the early ones. */
  predicate Aligned(edits: seq<Edit>)
    decreases |edits|
  {
    edits == [] || (Aligned(Front(edits)) && (Last(edits).late ==> Shift(Front(edits)) == 0))
  }

  /** The early edits, and then the late ones at the offsets that they had at first. */
  function TwoPasses(s: string, edits: seq<Edit>): Result<string> {
    var first :- ReplaceAll(s, Only(edits, false));
    ReplaceAll(first, Only(edits, true))
  }

  lemma {:induction false} EarlyLength(s: string, edits: seq<Edit>)
    requires Spaced(edits, |s|) && Spaced(Only(edits, false), |s|)
    ensures |Edited(s, Only(edits, false))| == |s| + Shift(edits)
    decreases |edits|
  {
    if edits != [] {
      var e := Last(edits);
      OnlySpaced(Front(edits), false, e.span.start, e.span.start);
      if e.late {
        assert Only(edits, false) == Only(Front(edits), false);
        SpacedMore(Front(edits), e.span.start, |s|);
        EarlyLength(s, Front(edits));
      } else {
        assert Front(Only(edits, false)) == Only(Front(edits), false);
        EarlyLength(s[..e.span.start], Front(edits));
      }
    }
  }

  lemma {:induction false} SpacedMore(edits: seq<Edit>, n: nat, m: nat)
    requires Spaced(edits, n) && n <= m
    ensures Spaced(edits, m)
  {
  }

  /** Early edits leave what follows them. */
  lemma {:induction false} EditedBefore(p: string, q: string, edits: seq<Edit>)
    requires Spaced(edits, |p|) && Spaced(edits, |p + q|)
    ensures Edited(p + q, edits) == Edited(p, edits) + q
  {
    ReplaceBefore(p, q, edits);
    RightToLeft(p, edits);
    RightToLeft(p + q, edits);
  }

  /** A replacement that works in a text works in a longer one. */
  lemma {:induction false} ReplaceExtends(p: string, q: string, edits: seq<Edit>)
    requires ReplaceAll(p, edits).Ok?
    ensures ReplaceAll(p + q, edits) == Ok(ReplaceAll(p, edits).value + q)
    decreases |edits|
  {
    if edits != [] {
      var e := Last(edits);
      RangeBefore(p, q, e.span, e.value);
      var next := p[..e.span.start] + (e.value + p[e.span.end..]);
      ReplaceExtends(next, q, Front(edits));
      assert p[..e.span.start] + (e.value + p[e.span.end..] + q) == next + q;
    }
  }

  lemma {:induction false} FirstPass(s: string, edits: seq<Edit>)
    requires Spaced(edits, |s|)
    ensures Spaced(Only(edits, false), |s|) && Spaced(Only(edits, true), |s|)
    ensures TwoPasses(s, edits) == ReplaceAll(Edited(s, Only(edits, false)), Only(edits, true))
  {
    OnlySpaced(edits, false, |s|, |s|);
    OnlySpaced(edits, true, |s|, |s|);
    RightToLeft(s, Only(edits, false));
  }

  lemma {:induction false} LastEarly(s: string, edits: seq<Edit>)
    requires Spaced(edits, |s|) && edits != [] && !Last(edits).late
    requires TwoPasses(s[..Last(edits).span.start], Front(edits)).Ok?
    ensures var e := Last(edits);
            TwoPasses(s, edits)
            == Ok(TwoPasses(s[..e.span.start], Front(edits)).value + e.value + s[e.span.end..])
  {
    hide ReplaceAll, TwoPasses, Edited, Only, Shift;
    var e := Last(edits);
    var kept, tail := s[..e.span.start], e.value + s[e.span.end..];
    FirstPass(s, edits);
    FirstPass(kept, Front(edits));
    OnlyStep(edits);
    var early := Only(Front(edits), false);
    EditedPush(s, early, e);
    var first := Edited(kept, early);
    ReplaceExtends(first, tail, Only(edits, true));
    assert first + e.value + s[e.span.end..] == first + tail;
    var r := TwoPasses(kept, Front(edits)).value;
    assert r + tail == r + e.value + s[e.span.end..];
  }

  lemma OnlyStep(edits: seq<Edit>)
    requires edits != []
    ensures Last(edits).late ==>
              && Only(edits, true) == Only(Front(edits), true) + [Last(edits)]
              && Only(edits, false) == Only(Front(edits), false)
    ensures !Last(edits).late ==>
              && Only(edits, false) == Only(Front(edits), false) + [Last(edits)]
              && Only(edits, true) == Only(Front(edits), true)
  {
    var early, late := Only(Front(edits), false), Only(Front(edits), true);
    assert early + [] == early && late + [] == late;
  }

  lemma EditedPush(s: string, edits: seq<Edit>, e: Edit)
    requires Spaced(edits + [e], |s|)
    ensures e.span.start <= e.span.end <= |s| && Spaced(edits, |s[..e.span.start]|)
    ensures Edited(s, edits + [e]) == Edited(s[..e.span.start], edits) + e.value + s[e.span.end..]
  {
    assert Front(edits + [e]) == edits && Last(edits + [e]) == e;
  }

  /** The edits applied to the text that a replacement gave. */
  function Onward(r: Result<string>, edits: seq<Edit>): Result<string> {
    match r
    case Ok(s) => ReplaceAll(s, edits)
    case Err(e) => Err(e)
  }

  /** Before a last late edit: the text that the first pass has made of `s`. */
  lemma {:induction false} LastLate(s: string, edits: seq<Edit>) returns (first: string)
    requires Spaced(edits, |s|) && edits != [] && Last(edits).late
    ensures var c := Last(edits);
            var kept := s[..c.span.start];
            && |first| == |kept| + Shift(Front(edits))
            && TwoPasses(kept, Front(edits)) == ReplaceAll(first, Only(Front(edits), true))
            && TwoPasses(s, edits) ==
               Onward(ReplaceRange(first + s[c.span.start..], c.span, c.value), Only(Front(edits), true))
  {
    hide Shift, Edited, TwoPasses, ReplaceRange, Only, ReplaceAll;
    var c := Last(edits);
    var kept := s[..c.span.start];
    FirstPass(s, edits);
    FirstPass(kept, Front(edits));
    OnlyStep(edits);
    first := Edited(kept, Only(Front(edits), false));
    EarlyLength(kept, Front(edits));
    assert kept + s[c.span.start..] == s;
    EditedBefore(kept, s[c.span.start..], Only(edits, false));
    ReplaceAllPush(first + s[c.span.start..], Only(Front(edits), true), c);
  }

  lemma ReplaceAllPush(s: string, edits: seq<Edit>, e: Edit)
    ensures ReplaceAll(s, edits + [e]) == Onward(ReplaceRange(s, e.span, e.value), edits)
  {
    assert Front(edits + [e]) == edits && Last(edits + [e]) == e;
  }

  lemma {:induction false} LastLateInPlace(s: string, edits: seq<Edit>)
    requires Spaced(edits, |s|) && edits != [] && Last(edits).late && Shift(Front(edits)) == 0
    requires TwoPasses(s[..Last(edits).span.start], Front(edits)).Ok?
    ensures var c := Last(edits);
            TwoPasses(s, edits)
            == Ok(TwoPasses(s[..c.span.start], Front(edits)).value + c.value + s[c.span.end..])
  {
    hide ReplaceAll, Shift, TwoPasses, Only;
    var c := Last(edits);
    var first := LastLate(s, edits);
    var text := first + s[c.span.start..];
    assert text[..c.span.start] == first && text[c.span.end..] == s[c.span.end..];
    ReplaceExtends(first, c.value + s[c.span.end..], Only(Front(edits), true));
    assert first + c.value + s[c.span.end..] == first + (c.value + s[c.span.end..]);
    var r := TwoPasses(s[..c.span.start], Front(edits)).value;
    assert r + (c.value + s[c.span.end..]) == r + c.value + s[c.span.end..];
  }

  /** Two passes are one when no late edit has been moved. */
  lemma {:induction false} AlignedPasses(s: string, edits: seq<Edit>)
    requires Spaced(edits, |s|) && Aligned(edits)
    ensures TwoPasses(s, edits) == Ok(Edited(s, edits))
    decreases |edits|
  {
    hide Shift, ReplaceRange;
    if edits != [] {
      hide TwoPasses;
      AlignedPasses(s[..Last(edits).span.start], Front(edits));
      if Last(edits).late {
        LastLateInPlace(s, edits);
      } else {
        LastEarly(s, edits);
      }
    }
  }

  /** Early edits never shorten the text, as those of one character cannot. */
  predicate NeverShrinks(edits: seq<Edit>)
    decreases |edits|
  {
    edits == [] || (NeverShrinks(Front(edits)) &&
                    (Last(edits).late || Last(edits).span.end - Last(edits).span.start <= |Last(edits).value|))
  }

  /** `$` and digits. */
  predicate IsPosition(w: string) {
    |w| >= 2 && w[0] == '$' && AllDigits(w[1..])
  }

  /** A character that belongs to no position. */
  predicate Separates(c: char) {
    c != '$' && !IsDigit(c)
  }

  /** A text that ends with a digit has no `$`: it is a number. */
  predicate PlainNumber(value: string) {
    value != "" && IsDigit(Last(value)) ==> '$' !in value
  }

  /** Every late edit replaces a position that stands apart: in front of it is nothing, or
  a separating character that is not part of another edit. */
  predicate StandsApart(s: string, edits: seq<Edit>)
    requires Spaced(edits, |s|)
    decreases |edits|
  {
    edits == [] ||
    (var e := Last(edits);
     && StandsApart(s[..e.span.start], Front(edits))
     && (e.late ==>
           && IsPosition(s[e.span.start..e.span.end]) && PlainNumber(e.value)
           && (e.span.start > 0 ==> Separates(s[e.span.start - 1]) && Spaced(Front(edits), e.span.start - 1))))
  }

  lemma {:induction false} ShiftGrows(edits: seq<Edit>)
    requires NeverShrinks(edits)
    ensures Shift(edits) >= 0
    decreases |edits|
  {
    if edits != [] {
      ShiftGrows(Front(edits));
    }
  }

  lemma {:induction false} PassesSucceed(s: string, edits: seq<Edit>)
    requires Spaced(edits, |s|) && NeverShrinks(edits)
    ensures TwoPasses(s, edits).Ok?
  {
    hide Shift;
    FirstPass(s, edits);
    EarlyLength(s, edits);
    ShiftGrows(edits);
    var first := Edited(s, Only(edits, false));
    SpacedMore(Only(edits, true), |s|, |first|);
    ReplaceBefore(first, "", Only(edits, true));
  }

  /** The k-th character from the end. */
  function FromEnd(s: string, k: nat): char
    requires k < |s|
  {
    s[|s| - 1 - k]
  }

  predicate EndAlike(a: string, b: string) {
    forall k :: 0 <= k < |a| && k < |b| ==> FromEnd(a, k) == FromEnd(b, k)
  }

  /** Two words that commute across a text are rotations of each other; by `r` characters,
  which are those of the text when it is the shorter one. */
  lemma {:induction false} RotationLast(d: string, v: string, z: string) returns (r: nat)
    requires |d| == |z| > 0 && d + v == v + z
    ensures r < |z| && r <= |v| && (|v| < |z| ==> r == |v|)
    ensures Last(d) == FromEnd(z, r)
    decreases |v|
  {
    if |v| < |z| {
      r := |v|;
      assert (d + v)[|d| - 1] == Last(d) && (v + z)[|d| - 1] == z[|d| - 1 - |v|];
    } else {
      var rest := v[|z|..];
      Cancel(d, v, z, rest);
      r := RotationLast(d, rest, z);
    }
  }

  lemma Cancel(d: string, v: string, z: string, rest: string)
    requires |d| == |z| <= |v| && d + v == v + z && rest == v[|z|..]
    ensures d + rest == v == rest + z
  {
    assert (d + v)[..|d|] == d && (v + z)[..|d|] == v[..|d|];
    assert (d + v)[|d|..] == v && (v + z)[|d|..] == rest + z;
  }

  /** Both sides end as `v` and as `z`. */
  lemma SameEnd(d: string, v: string, z: string)
    requires |d| == |z| && d + v == v + z
    ensures EndAlike(v, z)
  {
    forall k | 0 <= k < |v| && k < |z| ensures FromEnd(v, k) == FromEnd(z, k) {
      assert FromEnd(d + v, k) == FromEnd(v, k) && FromEnd(v + z, k) == FromEnd(z, k);
    }
  }

  lemma PositionFromEnd(w: string, k: nat)
    requires IsPosition(w) && k < |w|
    ensures if k == |w| - 1 then FromEnd(w, k) == '$' else IsDigit(FromEnd(w, k))
  {
    if k < |w| - 1 {
      assert FromEnd(w, k) == w[1..][|w| - 2 - k];
    }
  }

  /** A long text that ends as the position does has its `$`. */
  lemma LongHasDollar(v: string, z: string, w: string)
    requires IsPosition(w) && EndAlike(v, z) && EndAlike(z, w) && |z| >= |w| && |v| >= |w|
    ensures '$' in v
  {
    hide IsPosition;
    PositionLength(w);
    PositionFromEnd(w, |w| - 1);
    assert FromEnd(v, |w| - 1) == FromEnd(z, |w| - 1) == FromEnd(w, |w| - 1);
  }

  lemma EndsWithDigit(v: string, z: string, w: string)
    requires IsPosition(w) && EndAlike(v, z) && EndAlike(z, w) && v != "" && z != ""
    ensures IsDigit(Last(v))
  {
    hide IsPosition;
    PositionLength(w);
    PositionFromEnd(w, 0);
    assert Last(v) == FromEnd(v, 0) == FromEnd(z, 0) == FromEnd(w, 0);
  }

  lemma NumberIsShort(v: string, z: string, w: string)
    requires IsPosition(w) && EndAlike(v, z) && EndAlike(z, w) && z != "" && PlainNumber(v)
    ensures |z| < |w| || |v| < |w|
  {
    hide IsPosition, EndAlike;
    if v != "" {
      EndsWithDigit(v, z, w);
      if |z| >= |w| && |v| >= |w| {
        LongHasDollar(v, z, w);
      }
    } else {
      assert |w| > 0 by {
        PositionLength(w);
      }
    }
  }

  lemma PositionLength(w: string)
    requires IsPosition(w)
    ensures |w| >= 2
  {
  }

  /** Where `v` comes out right although the end `z` of the position `w` that it should
  replace is left behind it, what stands in front of it ends with no separator. */
  lemma {:induction false} RotationNeverSeparates(d: string, v: string, z: string, w: string)
    requires IsPosition(w) && PlainNumber(v) && |d| == |z| > 0 && EndAlike(z, w)
    requires d + v == v + z
    ensures !Separates(Last(d))
  {
    hide IsPosition, EndAlike;
    var r := RotationLast(d, v, z);
    SameEnd(d, v, z);
    NumberIsShort(v, z, w);
    PositionFromEnd(w, r);
    AlikeAt(z, w, r);
  }

  lemma AlikeAt(z: string, w: string, r: nat)
    requires EndAlike(z, w) && r < |z| && r < |w|
    ensures FromEnd(z, r) == FromEnd(w, r)
  {
  }

  /** A late edit that has been moved never comes out right: if it did, what precedes the
  position would end with no separator. */
  lemma {:induction false} LastLateMoved(s: string, edits: seq<Edit>)
    requires Spaced(edits, |s|) && edits != [] && Last(edits).late && NeverShrinks(Front(edits))
    requires IsPosition(s[Last(edits).span.start..Last(edits).span.end]) && PlainNumber(Last(edits).value)
    requires Last(edits).span.start > 0 && Spaced(Front(edits), Last(edits).span.start - 1)
    requires Shift(Front(edits)) > 0 && TwoPasses(s, edits) == Ok(Edited(s, edits))
    ensures !Separates(s[Last(edits).span.start - 1])
  {
    hide Shift, TwoPasses, NeverShrinks;
    var c := Last(edits);
    var d := Shift(Front(edits));
    var kept := s[..c.span.start];
    var w := s[c.span.start..c.span.end];
    var text, r := MovedText(s, edits);
    var z := text[c.span.end..c.span.end + d];
    var y := Edited(kept, Front(edits));
    var tail := s[c.span.end..];
    assert text[c.span.end..] == z + tail;
    LastOfEdited(s, c.span.start, Front(edits));
    forall k | 0 <= k < |z| && k < |w| ensures FromEnd(z, k) == FromEnd(w, k) {
      assert text[c.span.end + d - 1 - k] == text[c.span.start + d..][c.span.end - c.span.start - 1 - k] ==
             s[c.span.start..][c.span.end - c.span.start - 1 - k];
    }
    CommonTail(r, c.value, z, y, tail);
    RotationNeverSeparates(y[|r|..], c.value, z, w);
  }

  /** What `StandsApart` says of a last late edit. */
  lemma StandsAlone(s: string, edits: seq<Edit>)
    requires Spaced(edits, |s|) && edits != [] && Last(edits).late && StandsApart(s, edits) && Shift(Front(edits)) > 0
    ensures var c := Last(edits);
            && IsPosition(s[c.span.start..c.span.end]) && PlainNumber(c.value) && c.span.start > 0
            && Separates(s[c.span.start - 1]) && Spaced(Front(edits), c.span.start - 1)
  {
    assert Front(edits) != [];
  }

  lemma LastOfEdited(s: string, start: nat, edits: seq<Edit>)
    requires 0 < start <= |s| && Spaced(edits, start - 1) && Spaced(edits, |s[..start]|)
    ensures var y := Edited(s[..start], edits); y != "" && Last(y) == s[start - 1]
  {
    hide Edited, Spaced;
    var front := s[..start - 1];
    assert s[..start] == front + [s[start - 1]];
    EditedBefore(front, [s[start - 1]], edits);
  }

  lemma CommonTail(r: string, v: string, z: string, y: string, tail: string)
    requires r + (v + (z + tail)) == y + v + tail
    ensures |y| == |r| + |z| && y[|r|..] + v == v + z
  {
    var left, right := r + (v + z), y + v;
    assert left + tail == r + (v + (z + tail));
    assert left == (left + tail)[..|left|] && right == (right + tail)[..|right|];
    assert left[|r|..] == v + z && right[|r|..] == y[|r|..] + v;
  }

  /** What the second pass makes of a text whose last position has been moved: `text` is
  what the first pass has made, and `r` what is in front of the replaced span in the end. */
  lemma {:induction false} MovedText(s: string, edits: seq<Edit>) returns (text: string, r: string)
    requires Spaced(edits, |s|) && edits != [] && Last(edits).late && NeverShrinks(Front(edits))
    requires Shift(Front(edits)) > 0
    ensures var c := Last(edits);
            var d := Shift(Front(edits));
            && |text| == |s| + d && text[c.span.start + d..] == s[c.span.start..]
            && TwoPasses(s, edits) == Ok(r + (c.value + text[c.span.end..]))
  {
    hide ReplaceAll, Shift, TwoPasses, Only, NeverShrinks;
    var c := Last(edits);
    var first := LastLate(s, edits);
    text := first + s[c.span.start..];
    var front := Only(Front(edits), true);
    OnlySpaced(Front(edits), true, c.span.start, c.span.start);
    ReplaceBefore(text[..c.span.start], c.value + text[c.span.end..], front);
    assert text[..c.span.start] + c.value + text[c.span.end..] == text[..c.span.start] + (c.value + text[c.span.end..]);
    r := ReplaceAll(text[..c.span.start], front).value;
  }

  /** Exactly: two passes are one if and only if no late edit has been moved. */
  lemma {:induction false} PassesIff(s: string, edits: seq<Edit>)
    requires Spaced(edits, |s|) && NeverShrinks(edits) && StandsApart(s, edits)
    ensures TwoPasses(s, edits) == Ok(Edited(s, edits)) <==> Aligned(edits)
    decreases |edits|
  {
    hide Shift, TwoPasses, ReplaceRange;
    if Aligned(edits) {
      AlignedPasses(s, edits);
    } else {
      var e := Last(edits);
      var kept := s[..e.span.start];
      PassesIff(kept, Front(edits));
      PassesSucceed(kept, Front(edits));
      ShiftGrows(Front(edits));
      var inner := TwoPasses(kept, Front(edits)).value;
      if e.late && Shift(Front(edits)) > 0 {
        StandsAlone(s, edits);
        if TwoPasses(s, edits) == Ok(Edited(s, edits)) {
          LastLateMoved(s, edits);
        }
      } else {
        if e.late {
          LastLateInPlace(s, edits);
        } else {
          LastEarly(s, edits);
        }
        SameTail(inner, Edited(kept, Front(edits)), e.value + s[e.span.end..]);
        assert inner + e.value + s[e.span.end..] == inner + (e.value + s[e.span.end..]);
        assert Edited(s, edits) == Edited(kept, Front(edits)) + (e.value + s[e.span.end..]);
      }
    }
  }

  lemma {:induction false} SameTail(a: string, b: string, tail: string)
    ensures a + tail == b + tail <==> a == b
  {
    if a + tail == b + tail {
      assert a == (a + tail)[..|a|] && b == (b + tail)[..|b|];
    }
  }
}
