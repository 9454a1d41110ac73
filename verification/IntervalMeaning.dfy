/** What an interval text means: a list of amounts, each with a sign and perhaps a unit. */
module IntervalMeaning {
  import opened Results
  import opened Digits
  import opened Cursors
  import opened Intervals
  import opened IntervalRoundTrip

  // ---------------------------------------------------------------------------
  // Figures
  // ---------------------------------------------------------------------------

  /** A number with a fraction, or a time of day with or without seconds. */
  datatype Figure =
    | Plain(digits: string, fraction: string)
    | Clock(hours: string, minutes: string)
    | FullClock(hours: string, minutes: string, seconds: string, fraction: string)

  predicate GoodFigure(f: Figure) {
    match f
    case Plain(digits, fraction) => digits != "" && AllDigits(digits) && AllDigits(fraction)
    case Clock(hours, minutes) => hours != "" && AllDigits(hours) && AllDigits(minutes)
    case FullClock(hours, minutes, seconds, fraction) =>
      hours != "" && AllDigits(hours) && AllDigits(minutes) && AllDigits(seconds) && AllDigits(fraction)
  }

  function PointText(fraction: string): string {
    if fraction == "" then "" else "." + fraction
  }

  function FigureText(f: Figure): string {
    match f
    case Plain(digits, fraction) => digits + PointText(fraction)
    case Clock(hours, minutes) => hours + (":" + minutes)
    case FullClock(hours, minutes, seconds, fraction) =>
      hours + (":" + (minutes + (":" + (seconds + PointText(fraction)))))
  }

  /** The first six digits of a fraction, in millionths. */
  function Millionths(fraction: string): nat
    requires AllDigits(fraction)
  {
    if |fraction| <= 6 then NatOf(fraction) * Pow10(6 - |fraction|) else NatOf(fraction[..6])
  }

  /** The whole number; of a time of day, its microseconds. */
  function Whole(f: Figure): nat
    requires GoodFigure(f)
  {
    match f
    case Plain(digits, _) => NatOf(digits)
    case Clock(hours, minutes) => NatOf(hours) * 3_600_000_000 + NatOf(minutes) * 60_000_000
    case FullClock(hours, minutes, seconds, fraction) =>
      NatOf(hours) * 3_600_000_000 + NatOf(minutes) * 60_000_000 + NatOf(seconds) * 1_000_000 + Millionths(fraction)
  }

  function Rest(f: Figure): nat
    requires GoodFigure(f)
  {
    if f.Plain? then Millionths(f.fraction) else 0
  }

  lemma {:induction false} MillionthsAre(fraction: string)
    requires AllDigits(fraction)
    ensures FractionMicros(fraction) == Millionths(fraction)
  {
    if |fraction| <= 6 {
      FractionOfDigits(fraction);
    } else {
      var init := fraction[..|fraction| - 1];
      MillionthsAre(init);
      if |fraction| == 7 {
        assert init == fraction[..6] && Pow10(0) == 1;
      } else {
        assert init[..6] == fraction[..6];
      }
    }
  }

  lemma {:induction false} PointRead(fraction: string, rest: string)
    requires AllDigits(fraction) && Delimited(rest)
    ensures SplitFraction(PointText(fraction) + rest) == (Millionths(fraction), rest)
  {
    hide Millionths, FractionMicros;
    if fraction == "" {
      assert "" + rest == rest;
      NoMillionths();
    } else {
      assert ("." + fraction + rest)[1..] == fraction + rest;
      SplitDigitsOf(fraction, rest);
      MillionthsAre(fraction);
    }
  }

  lemma NoMillionths()
    ensures Millionths("") == 0
  {
  }

  lemma {:induction false} PlainRead(digits: string, fraction: string, rest: string)
    requires digits != "" && AllDigits(digits) && AllDigits(fraction) && NatOf(digits) <= I64_MAX && Delimited(rest)
    ensures ReadAmount(digits + PointText(fraction) + rest) == Ok(Amount(NatOf(digits), Millionths(fraction), rest))
  {
    hide SplitDigits, SplitFraction, Accumulated, NatOf, Millionths;
    var tail := PointText(fraction) + rest;
    assert digits + PointText(fraction) + rest == digits + tail;
    SplitDigitsOf(digits, tail);
    AccumulatedIs(digits);
    PointRead(fraction, rest);
  }

  /** A part of a time of day, as one step over the colons reads it. */
  lemma {:induction false} ColonStep(part: string, tail: string, colons: nat, total: nat)
    requires AllDigits(part) && (tail == "" || tail[0] == ':' || tail[0] == ' ')
    requires total + NatOf(part) * 60_000_000 <= I64_MAX && colons < 2
    ensures part + tail != "" ==>
              ReadColons(part + tail, colons, total)
              == var sum := total + NatOf(part) * 60_000_000;
                 if tail != "" && tail[0] == ':' then ReadColons(tail[1..], colons + 1, sum) else Ok((sum, tail))
  {
    hide Accumulated, SplitDigits, NatOf;
    SplitDigitsOf(part, tail);
    AccumulatedIs(part);
  }

  lemma NoNumber()
    ensures NatOf("") == 0
  {
  }

  lemma {:induction false} MinutesRead(minutes: string, tail: string, total: nat)
    requires AllDigits(minutes) && (tail == "" || tail[0] == ':' || tail[0] == ' ')
    requires total + NatOf(minutes) * 60_000_000 <= I64_MAX
    ensures ReadColons(":" + (minutes + tail), 0, total)
            == var sum := total + NatOf(minutes) * 60_000_000;
               if tail != "" && tail[0] == ':' then Ok((sum, tail[1..])) else Ok((sum, tail))
  {
    hide NatOf, ReadColons;
    var x := minutes + tail;
    NoNumber();
    assert "" + (":" + x) == ":" + x && (":" + x)[1..] == x;
    ColonStep("", ":" + x, 0, total);
    if x == "" {
      assert minutes == "" && tail == "";
      ColonsEnd(x, 1, total);
    } else {
      ColonStep(minutes, tail, 1, total);
      if tail != "" && tail[0] == ':' {
        ColonsEnd(tail[1..], 2, total + NatOf(minutes) * 60_000_000);
      }
    }
  }

  lemma ColonsEnd(s: string, colons: nat, total: nat)
    requires colons == 2 || s == ""
    ensures ReadColons(s, colons, total) == Ok((total, s))
  {
  }

  lemma {:induction false} SecondsRead(seconds: string, fraction: string, rest: string, total: nat)
    requires AllDigits(seconds) && AllDigits(fraction) && Delimited(rest)
    requires total + NatOf(seconds) * 1_000_000 + Millionths(fraction) <= I64_MAX
    ensures ReadSeconds(total, seconds + (PointText(fraction) + rest))
            == Ok(Amount(total + NatOf(seconds) * 1_000_000 + Millionths(fraction), 0, rest))
  {
    hide SplitDigits, SplitFraction, Accumulated, NatOf, Millionths;
    SplitDigitsOf(seconds, PointText(fraction) + rest);
    AccumulatedIs(seconds);
    PointRead(fraction, rest);
  }

  lemma {:induction false} TimeRead(hours: string, s: string)
    requires hours != "" && AllDigits(hours) && NatOf(hours) * 3_600_000_000 <= I64_MAX
    requires s != "" && s[0] == ':'
    ensures ReadAmount(hours + s) ==
            match ReadColons(s, 0, NatOf(hours) * 3_600_000_000)
            case Err(e) => Err(e)
            case Ok((total, tail)) => if tail == "" then Ok(Amount(total, 0, "")) else ReadSeconds(total, tail)
  {
    hide SplitDigits, Accumulated, NatOf, ReadColons, ReadSeconds;
    SplitDigitsOf(hours, s);
    AccumulatedIs(hours);
  }

  lemma {:induction false} ClockRead(hours: string, minutes: string, rest: string)
    requires hours != "" && AllDigits(hours) && AllDigits(minutes) && Delimited(rest)
    requires Whole(Clock(hours, minutes)) <= I64_MAX
    ensures ReadAmount(hours + (":" + (minutes + rest))) == Ok(Amount(Whole(Clock(hours, minutes)), 0, rest))
  {
    hide NatOf, ReadColons, ReadAmount, ReadSeconds;
    var start := NatOf(hours) * 3_600_000_000;
    TimeRead(hours, ":" + (minutes + rest));
    MinutesRead(minutes, rest, start);
    if rest != "" {
      NoNumber();
      NoMillionths();
      SecondsRead("", "", rest, Whole(Clock(hours, minutes)));
      assert "" + ("" + rest) == rest;
    }
  }

  lemma {:induction false} FullClockRead(f: Figure, rest: string)
    requires f.FullClock? && GoodFigure(f) && Whole(f) <= I64_MAX && Delimited(rest)
    ensures ReadAmount(FigureText(f) + rest) == Ok(Amount(Whole(f), 0, rest))
  {
    hide NatOf, ReadColons, ReadAmount, ReadSeconds, PointText, Millionths;
    var start := NatOf(f.hours) * 3_600_000_000;
    var tail := f.seconds + (PointText(f.fraction) + rest);
    var s := ":" + (f.minutes + (":" + tail));
    assert FigureText(f) + rest == f.hours + s;
    TimeRead(f.hours, s);
    MinutesRead(f.minutes, ":" + tail, start);
    assert (":" + tail)[1..] == tail;
    var sum := start + NatOf(f.minutes) * 60_000_000;
    SecondsRead(f.seconds, f.fraction, rest, sum);
    if tail == "" {
      NothingBehind(f.seconds, f.fraction, rest);
    }
  }

  lemma NothingBehind(seconds: string, fraction: string, rest: string)
    requires seconds + (PointText(fraction) + rest) == "" && AllDigits(fraction)
    ensures rest == "" && seconds == "" && NatOf(seconds) == 0 && Millionths(fraction) == 0
  {
    assert |seconds| + |PointText(fraction)| + |rest| == 0;
  }

  /** Every figure is read as its value, with what follows left unread. */
  lemma {:induction false} FigureRead(f: Figure, rest: string)
    requires GoodFigure(f) && Whole(f) <= I64_MAX && Delimited(rest)
    ensures ReadAmount(FigureText(f) + rest) == Ok(Amount(Whole(f), Rest(f), rest))
  {
    hide ReadAmount, NatOf, Millionths, PointText;
    match f
    case Plain(digits, fraction) => PlainRead(digits, fraction, rest);
    case Clock(hours, minutes) =>
      assert hours + (":" + minutes) + rest == hours + (":" + (minutes + rest));
      ClockRead(hours, minutes, rest);
    case FullClock(_, _, _, _) => FullClockRead(f, rest);
  }

  // ---------------------------------------------------------------------------
  // Terms
  // ---------------------------------------------------------------------------

  /** A figure with its sign and, unless empty, the word behind it. */
  datatype Term = Term(negative: bool, figure: Figure, word: string)

  predicate GoodTerm(t: Term) {
    GoodFigure(t.figure) && Whole(t.figure) <= I64_MAX && forall k :: 0 <= k < |t.word| ==> IsAlpha(t.word[k])
  }

  function TermText(t: Term): string {
    (if t.negative then "-" else "") + (FigureText(t.figure) + (if t.word == "" then "" else " " + t.word))
  }

  function TermsText(ts: seq<Term>): string {
    if ts == [] then ""
    else if |ts| == 1 then TermText(ts[0])
    else TermText(ts[0]) + (" " + TermsText(ts[1..]))
  }

  function Signed(negative: bool, n: nat): int {
    if negative then -(n as int) else n
  }

  /** The interval with a term added to it. */
  function After(i: Interval, t: Term): Interval
    requires GoodTerm(t)
  {
    Applied(i, Signed(t.negative, Whole(t.figure)), Signed(t.negative, Rest(t.figure)), t.word)
  }

  /** The terms added to an interval, one after the other. */
  function Sum(i: Interval, ts: seq<Term>): Interval
    requires forall k :: 0 <= k < |ts| ==> GoodTerm(ts[k])
    decreases |ts|
  {
    if ts == [] then i else Sum(After(i, ts[0]), ts[1..])
  }

  /** What follows cannot be taken for a word. */
  predicate Wordless(rest: string) {
    rest == "" || (|rest| >= 2 && rest[0] == ' ' && !IsBlank(rest[1]) && !IsAlpha(rest[1]))
  }

  lemma {:induction false} NoWordRead(rest: string)
    requires Wordless(rest)
    ensures ReadWord(rest) == ("", if rest == "" then "" else rest[1..])
  {
    if rest != "" {
      PrefixLenIs(rest, IsBlank, 1);
      PrefixLenIs(rest[1..], IsAlpha, 0);
    }
  }

  lemma {:induction false} FigureHead(f: Figure, more: string)
    requires GoodFigure(f)
    ensures FigureText(f) != "" && IsDigit((FigureText(f) + more)[0])
  {
  }

  lemma {:induction false} UnitRead(t: Term, rest: string, i: Interval, sign: int)
    requires GoodTerm(t) && Delimited(rest) && (t.word == "" ==> Wordless(rest))
    ensures var word := if t.word == "" then "" else " " + t.word;
            ReadUnit(FigureText(t.figure) + (word + rest), i, sign)
            == Ok((Applied(i, sign * Whole(t.figure), sign * Rest(t.figure), t.word),
                   if t.word == "" && rest != "" then rest[1..] else rest))
  {
    hide ReadAmount, ReadWord, Applied, Whole, Rest, FigureText, GoodFigure;
    if t.word == "" {
      assert "" + rest == rest;
      FigureRead(t.figure, rest);
      NoWordRead(rest);
    } else {
      FigureRead(t.figure, " " + t.word + rest);
      WordOf(t.word, rest);
    }
  }

  lemma SignTimes(negative: bool, n: nat)
    ensures (if negative then -1 else 1) * n == Signed(negative, n)
  {
  }

  lemma {:induction false} TermRead(t: Term, rest: string, i: Interval, found: bool)
    requires GoodTerm(t) && Delimited(rest) && (t.word == "" ==> Wordless(rest))
    ensures Scan(TermText(t) + rest, i, found)
            == Scan(rest, After(i, t), true)
  {
    hide ReadUnit, Applied, Whole, Rest, FigureText, GoodFigure, Signed;
    var word := if t.word == "" then "" else " " + t.word;
    var plain := FigureText(t.figure) + (word + rest);
    var s := TermText(t) + rest;
    FigureHead(t.figure, word + rest);
    UnitRead(t, rest, i, if t.negative then -1 else 1);
    SignTimes(t.negative, Whole(t.figure));
    SignTimes(t.negative, Rest(t.figure));
    if t.negative {
      assert s == "-" + plain && s[1..] == plain;
    } else {
      assert s == plain;
    }
  }

  lemma {:induction false} TermHead(t: Term, more: string)
    requires GoodTerm(t)
    ensures TermText(t) != "" && (IsDigit((TermText(t) + more)[0]) || (TermText(t) + more)[0] == '-')
  {
    hide FigureText, GoodFigure;
    FigureHead(t.figure, if t.word == "" then "" else " " + t.word);
  }

  lemma {:induction false} TermsHead(ts: seq<Term>, more: string)
    requires ts != [] && GoodTerm(ts[0])
    ensures TermsText(ts) != "" && (IsDigit((TermsText(ts) + more)[0]) || (TermsText(ts) + more)[0] == '-')
  {
    hide TermText, GoodTerm;
    TermHead(ts[0], "");
    assert TermText(ts[0]) + "" == TermText(ts[0]);
  }

  lemma SkipBlank(more: string, i: Interval)
    ensures Scan(" " + more, i, true) == Scan(more, i, true)
  {
    assert (" " + more)[1..] == more;
  }

  lemma {:induction false} TermsRead(ts: seq<Term>, end: string, i: Interval, found: bool)
    requires ts != [] && forall k :: 0 <= k < |ts| ==> GoodTerm(ts[k])
    requires Delimited(end) && (ts[|ts| - 1].word == "" ==> Wordless(end))
    ensures Scan(TermsText(ts) + end, i, found) == Scan(end, Sum(i, ts), true)
    decreases |ts|
  {
    hide Scan, GoodTerm, TermText, After;
    var t := ts[0];
    if |ts| == 1 {
      TermRead(t, end, i, found);
      assert Sum(After(i, t), ts[1..]) == After(i, t);
    } else {
      var more := TermsText(ts[1..]) + end;
      assert TermsText(ts) + end == TermText(t) + (" " + more);
      TermsHead(ts[1..], end);
      assert Wordless(" " + more) by {
        NotBlank(more[0]);
      }
      TermRead(t, " " + more, i, found);
      SkipBlank(more, After(i, t));
      TermsRead(ts[1..], end, After(i, t), true);
    }
  }

  lemma NotBlank(c: char)
    requires IsDigit(c) || c == '-'
    ensures !IsBlank(c) && !IsAlpha(c)
  {
  }

  /** The meaning of an interval text. A list of terms with blanks between them, perhaps
  behind an at sign, is the sum of the terms; with `ago` behind it, if the last term has a
  word of its own, the negated sum. */
  lemma {:induction false} TextMeaning(ts: seq<Term>, at: bool)
    requires ts != [] && forall k :: 0 <= k < |ts| ==> GoodTerm(ts[k])
    ensures var s := (if at then "@" else "") + TermsText(ts);
            && FromText(s) == Ok(Sum(Interval(0, 0, 0), ts))
            && (ts[|ts| - 1].word != "" ==> FromText(s + " ago") == Negated(Sum(Interval(0, 0, 0), ts)))
  {
    hide Scan, GoodTerm, TermsText, Negated;
    var zero, text, sign := Interval(0, 0, 0), TermsText(ts), if at then "@" else "";
    var sum := Sum(zero, ts);
    TermsHead(ts, "");
    TermsHead(ts, " ago");
    assert text + "" == text && ("@" + text)[1..] == text && "" + text == text;
    assert sign + text + " ago" == sign + (text + " ago") && ("@" + (text + " ago"))[1..] == text + " ago";
    TermsRead(ts, "", zero, false);
    ScanEnd(sum);
    if ts[|ts| - 1].word != "" {
      TermsRead(ts, " ago", zero, false);
      ScanAgo(sum, true);
    }
  }

  /** Behind a figure without a unit `ago` is itself taken for one, and the amount ignored. */
  lemma {:induction false} AgoNeedsUnit(f: Figure)
    requires GoodFigure(f) && Whole(f) <= I64_MAX
    ensures FromText(FigureText(f) + " ago") == Ok(Interval(0, 0, 0))
  {
    hide FromText, GoodFigure, FigureText, Whole, Rest, PartOf;
    var t := Term(false, f, "ago");
    assert IsAlpha("ago"[0]) && IsAlpha("ago"[1]) && IsAlpha("ago"[2]);
    assert GoodTerm(t);
    assert [t][1..] == [];
    NoAgoUnit();
    TextMeaning([t], false);
    assert "" + ("" + (FigureText(f) + (" " + "ago"))) == FigureText(f) + " ago";
    assert TermsText([t]) == TermText(t);
  }

  lemma NoAgoUnit()
    ensures PartOf("ago") == None
  {
    hide Lower;
    LowerIs("ago");
    assert |"ago"| == 3 && "ago"[0] == 'a' && "mon"[0] == 'm' && "day"[0] == 'd';
  }

  /** Without a unit the whole number counts as microseconds and the fraction as one of a
  second, each as far as there is room. */
  lemma NoUnit(i: Interval, number: int, fraction: int)
    requires InRange(i) && IsI64(number)
    ensures Applied(i, number, fraction, "") ==
            if i.micros + number < -0x8000_0000_0000_0000 || i.micros + number > 0x7FFF_FFFF_FFFF_FFFF then i
            else if IsI64(fraction) && -0x8000_0000_0000_0000 <= i.micros + number + fraction <= 0x7FFF_FFFF_FFFF_FFFF
            then i.(micros := i.micros + number + fraction)
            else i.(micros := i.micros + number)
  {
  }

  /** The fields are 32, 32 and 64 bits wide. */
  lemma FieldBounds(i: Interval)
    ensures InRange(i) <==> IsI32(i.months) && IsI32(i.days) && IsI64(i.micros)
    ensures IsI32(i.months) <==> -0x8000_0000 <= i.months <= 0x7FFF_FFFF
    ensures IsI64(i.micros) <==> -0x8000_0000_0000_0000 <= i.micros <= 0x7FFF_FFFF_FFFF_FFFF
  {
  }

  // ---------------------------------------------------------------------------
  // Letters, ago, and what is refused
  // ---------------------------------------------------------------------------

  /** Letters are those of ASCII, and a capital is lowered by 32. */
  lemma AsciiLetters(s: string, k: nat)
    requires k < |s|
    ensures IsAlpha(s[k]) <==> 65 <= s[k] as int <= 90 || 97 <= s[k] as int <= 122
    ensures |Lower(s)| == |s|
    ensures Lower(s)[k] as int == s[k] as int + if 65 <= s[k] as int <= 90 then 32 else 0
  {
  }

  /** A text from an `a` on is `ago` in any case with blanks behind it, which negates and
  overflows at the least value of a field, or is refused. */
  lemma {:induction false} AgoIff(s: string, i: Interval, found: bool)
    requires s != "" && (s[0] == 'a' || s[0] == 'A')
    ensures Scan(s, i, found) ==
            if |s| >= 3 && Lower(s[..3]) == "ago" && (forall k :: 3 <= k < |s| ==> s[k] in " \t\n") then
              if i.months == -0x8000_0000 || i.days == -0x8000_0000 || i.micros == -0x8000_0000_0000_0000
              then Err(Panicked)
              else Ok(Interval(-i.months, -i.days, -i.micros))
            else Err(Rejected)
  {
    if |s| >= 3 {
      LowerAgo(s[..3]);
      PrefixLenAll(s[3..], IsBlank);
      AllBlank(s[3..]);
      assert forall k :: 3 <= k < |s| ==> s[k] == s[3..][k - 3];
    }
  }

  lemma LowerAgo(s: string)
    requires |s| == 3
    ensures Lower(s) == "ago" <==> IsAgo(s)
  {
    assert Lower(s) == "ago" <==> Lower(s)[0] == 'a' && Lower(s)[1] == 'g' && Lower(s)[2] == 'o';
  }

  lemma {:induction false} AllBlank(s: string)
    ensures PrefixLen(s, IsBlank) == |s| <==> forall k :: 0 <= k < |s| ==> s[k] in " \t\n"
  {
    PrefixLenAll(s, IsBlank);
    if forall k :: 0 <= k < |s| ==> s[k] in " \t\n" {
      PrefixLenIs(s, IsBlank, |s|);
    }
  }

  /** A text without an amount is refused, and so is one that starts like the posix form. */
  lemma NoAmountRefused(s: string)
    ensures s == "" || s[0] == 'P' || s[0] == 'p' ==> FromText(s) == Err(Rejected)
    ensures (forall k :: 0 <= k < |s| ==> s[k] in " \t\n") ==> FromText(s) == Err(Rejected)
  {
    if forall k :: 0 <= k < |s| ==> s[k] in " \t\n" {
      BlanksOnly(s, Interval(0, 0, 0));
    }
  }

  lemma {:induction false} BlanksOnly(s: string, i: Interval)
    requires forall k :: 0 <= k < |s| ==> s[k] in " \t\n"
    ensures Scan(s, i, false) == Err(Rejected)
  {
    if s != "" {
      BlanksOnly(s[1..], i);
    }
  }

  /** The first digit too many: an error where the product overflows, and a panic where only
  the sum does. */
  lemma {:induction false} DigitsOverflow(digits: string, c: char, more: string)
    requires AllDigits(digits) && IsDigit(c) && NatOf(digits) <= 9_223_372_036_854_775_807
    requires NatOf(digits) * 10 + DigitOf(c) > 9_223_372_036_854_775_807
    ensures Accumulated(digits + [c] + more) ==
            Err(if NatOf(digits) > 922_337_203_685_477_580 then Rejected else Panicked)
    decreases |more|
  {
    var s := digits + [c] + more;
    if more == "" {
      assert s[..|s| - 1] == digits;
      AccumulatedIs(digits);
    } else {
      assert s[..|s| - 1] == digits + [c] + more[..|more| - 1];
      DigitsOverflow(digits, c, more[..|more| - 1]);
    }
  }
}
