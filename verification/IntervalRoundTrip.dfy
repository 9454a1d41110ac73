/** Every printed interval is read back as itself. */
module IntervalRoundTrip {
  import opened Results
  import opened Digits
  import opened Cursors
  import opened Intervals

  // ---------------------------------------------------------------------------
  // Pieces of text
  // ---------------------------------------------------------------------------

  lemma {:induction false} AccumulatedIs(digits: string)
    requires AllDigits(digits) && NatOf(digits) <= I64_MAX
    ensures Accumulated(digits) == Ok(NatOf(digits))
  {
    if digits != "" {
      AccumulatedIs(digits[..|digits| - 1]);
    }
  }

  lemma {:induction false} SplitDigitsOf(d: string, tail: string)
    requires AllDigits(d) && (tail != "" ==> !IsDigit(tail[0]))
    ensures SplitDigits(d + tail) == (d, tail)
  {
    PrefixLenIs(d + tail, IsDigit, |d|);
  }

  /** What may stand behind a field. */
  predicate Delimited(rest: string) {
    rest == "" || rest[0] == ' '
  }

  lemma {:induction false} AmountOf(v: nat, tail: string)
    requires v <= I64_MAX && Delimited(tail)
    ensures ReadAmount(DecOf(v) + tail) == Ok(Amount(v, 0, tail))
  {
    SplitDigitsOf(DecOf(v), tail);
    NatOfDecOf(v);
    AccumulatedIs(DecOf(v));
  }

  lemma {:induction false} WordOf(word: string, rest: string)
    requires word != "" && (forall k :: 0 <= k < |word| ==> IsAlpha(word[k])) && Delimited(rest)
    ensures ReadWord(" " + word + rest) == (word, rest)
  {
    var s := " " + word + rest;
    PrefixLenIs(s, IsBlank, 1);
    assert s[1..] == word + rest;
    PrefixLenIs(word + rest, IsAlpha, |word|);
  }

  lemma {:induction false} NoWord()
    ensures ReadWord("") == ("", "")
  {
  }

  // ---------------------------------------------------------------------------
  // Fields
  // ---------------------------------------------------------------------------

  function Plural(value: int, name: string): string {
    if value != 1 && value != -1 then name + "s" else name
  }

  /** An amount as text: a sign, a whole number, and perhaps a fraction. */
  function AmountText(negative: bool, n: nat, f: Option<string>): string {
    (if negative then "-" else "") + (DecOf(n) + (if f.Some? then "." + f.value else ""))
  }

  lemma {:induction false} FractionAmount(n: nat, f: string, tail: string)
    requires n <= I64_MAX && AllDigits(f) && Delimited(tail)
    ensures ReadAmount(DecOf(n) + ("." + f + tail)) == Ok(Amount(n, FractionMicros(f), tail))
  {
    hide FractionMicros;
    SplitDigitsOf(DecOf(n), "." + f + tail);
    assert ("." + f + tail)[1..] == f + tail;
    SplitDigitsOf(f, tail);
    NatOfDecOf(n);
    AccumulatedIs(DecOf(n));
  }

  /** The fraction of an amount with a unit is read and then left out. */
  lemma {:induction false} AmountUnit(n: nat, f: Option<string>, word: string, rest: string, i: Interval, sign: int)
    requires n <= I64_MAX && (f.Some? ==> AllDigits(f.value)) && Delimited(rest)
    requires word != "" && forall k :: 0 <= k < |word| ==> IsAlpha(word[k])
    ensures ReadUnit(AmountText(false, n, f) + (" " + word + rest), i, sign)
            == Ok((Applied(i, sign * n, 0, word), rest))
  {
    hide ReadAmount, ReadWord, FractionMicros;
    var tail := " " + word + rest;
    WordOf(word, rest);
    match f
    case None =>
      AmountOf(n, tail);
      assert AmountText(false, n, f) + tail == DecOf(n) + tail;
    case Some(digits) =>
      FractionAmount(n, digits, tail);
      assert AmountText(false, n, f) + tail == DecOf(n) + ("." + digits + tail);
  }

  lemma {:induction false} ScanAmount(negative: bool, n: nat, f: Option<string>, word: string, rest: string,
                                      i: Interval, found: bool)
    requires n <= I64_MAX && (f.Some? ==> AllDigits(f.value)) && Delimited(rest)
    requires word != "" && forall k :: 0 <= k < |word| ==> IsAlpha(word[k])
    ensures var signed := if negative then -(n as int) else n;
            Scan(AmountText(negative, n, f) + (" " + word + rest), i, found)
            == Scan(rest, Applied(i, signed, 0, word), true)
  {
    hide Applied, ReadUnit;
    var s := AmountText(negative, n, f) + (" " + word + rest);
    AmountUnit(n, f, word, rest, i, if negative then -1 else 1);
    if negative {
      assert s[0] == '-' && s[1..] == AmountText(false, n, f) + (" " + word + rest);
    } else {
      assert IsDigit(s[0]);
    }
  }

  /** `t` is read as what takes `i` to `j`, whatever field follows. */
  ghost predicate Reads(t: string, i: Interval, j: Interval) {
    forall rest, found :: Delimited(rest) ==> Scan(t + rest, i, found) == Scan(rest, j, found || t != "")
  }

  lemma {:induction false} ReadsNothing(i: Interval)
    ensures Reads("", i, i)
  {
    forall rest, found | Delimited(rest) ensures Scan("" + rest, i, found) == Scan(rest, i, found || false) {
      assert "" + rest == rest;
    }
  }

  lemma {:induction false} ReadsField(value: int, name: string, i: Interval)
    requires value != 0 && I32_MIN <= value <= I32_MAX
    requires name != "" && forall k :: 0 <= k < |name| ==> IsAlpha(name[k])
    ensures Reads(FieldText(value, name), i, Applied(i, value, 0, Plural(value, name)))
  {
    hide Applied, Scan, IntText, FieldText;
    var word := Plural(value, name);
    forall rest, found | Delimited(rest)
      ensures Scan(FieldText(value, name) + rest, i, found)
              == Scan(rest, Applied(i, value, 0, word), found || FieldText(value, name) != "")
    {
      ScanField(value, word, rest, i, found);
      FieldShape(value, name, rest);
    }
  }

  lemma {:induction false} FieldShape(value: int, name: string, rest: string)
    requires value != 0
    ensures FieldText(value, name) != ""
    ensures FieldText(value, name) + rest == IntText(value) + (" " + Plural(value, name) + rest)
  {
    hide IntText;
    var plural := if value != 1 && value != -1 then "s" else "";
    FieldParts(IntText(value), name, plural, rest);
    assert name + "" == name;
  }

  lemma FieldParts(a: string, name: string, plural: string, rest: string)
    ensures a + " " + name + plural + rest == a + (" " + (name + plural) + rest)
  {
    assert a + " " + name + plural == a + (" " + (name + plural));
  }

  lemma {:induction false} ScanField(value: int, word: string, rest: string, i: Interval, found: bool)
    requires value != 0 && I32_MIN <= value <= I32_MAX && Delimited(rest)
    requires word != "" && forall k :: 0 <= k < |word| ==> IsAlpha(word[k])
    ensures Scan(IntText(value) + (" " + word + rest), i, found) == Scan(rest, Applied(i, value, 0, word), true)
  {
    hide Scan, Applied, DecOf;
    ScanAmount(value < 0, Abs(value), None, word, rest, i, found);
    WholeAmount(value);
  }

  lemma WholeAmount(value: int)
    ensures AmountText(value < 0, Abs(value), None) == IntText(value)
  {
    hide DecOf;
    assert "" + (DecOf(Abs(value)) + "") == DecOf(Abs(value)) && DecOf(Abs(value)) + "" == DecOf(Abs(value));
  }

  lemma {:induction false} ReadsJoined(a: string, b: string, i: Interval, j: Interval, k: Interval)
    requires Reads(a, i, j) && Reads(b, j, k)
    ensures Reads(Joined(a, b), i, k)
  {
    hide Scan;
    if a == "" {
      SameState(i, j);
      assert a + b == b;
    } else if b == "" {
      SameState(j, k);
      assert a + b == a;
    } else {
      forall rest, found | Delimited(rest)
        ensures Scan(Joined(a, b) + rest, i, found) == Scan(rest, k, found || Joined(a, b) != "")
      {
        var tail := " " + (b + rest);
        assert a + " " + b + rest == a + tail;
        assert Scan(a + tail, i, found) == Scan(tail, j, true);
        ScanBlank(b + rest, j, true);
        assert Scan(b + rest, j, true) == Scan(rest, k, true);
      }
    }
  }

  lemma ScanBlank(s: string, i: Interval, found: bool)
    ensures Scan(" " + s, i, found) == Scan(s, i, found)
  {
    assert (" " + s)[1..] == s;
  }

  /** Nothing can only be read as changing nothing. */
  lemma {:induction false} SameState(i: Interval, j: Interval)
    requires Reads("", i, j)
    ensures i == j
  {
    assert "" + "" == "";
    assert Scan("" + "", i, true) == Scan("", j, true);
  }

  // ---------------------------------------------------------------------------
  // The date part
  // ---------------------------------------------------------------------------

  lemma {:induction false} LowerIs(w: string)
    requires forall k :: 0 <= k < |w| ==> 'a' <= w[k] <= 'z'
    ensures Lower(w) == w
  {
  }

  lemma {:induction false} PartOfYear(value: int)
    ensures PartOf(Plural(value, "year")) == Some(Months(12))
  {
    LowerIs("year");
    LowerIs("years");
  }

  lemma {:induction false} PartOfMonth(value: int)
    ensures PartOf(Plural(value, "month")) == Some(Months(1))
  {
    LowerIs("month");
    LowerIs("months");
    assert "month"[0] == "months"[0] == 'm' && "years"[0] == 'y' && "decade"[0] == 'd';
  }

  lemma {:induction false} PartOfDay(value: int)
    ensures PartOf(Plural(value, "day")) == Some(Days(1))
  {
    LowerIs("day");
    LowerIs("days");
    assert "day"[0] == "days"[0] == 'd' && "mon"[0] == 'm' && "year"[0] == 'y';
  }

  lemma {:induction false} YearsFit(months: int)
    requires I32_MIN <= months <= I32_MAX
    ensures -178956970 <= Years(months) <= 178956970
    ensures -11 <= MonthsLeft(months) <= 11
    ensures I32_MIN <= Years(months) * 12 <= I32_MAX
    ensures Years(months) * 12 + MonthsLeft(months) == months
  {
  }

  lemma ReadsNoField(name: string, i: Interval)
    ensures Reads(FieldText(0, name), i, i)
  {
    hide Reads;
    ReadsNothing(i);
  }

  lemma {:induction false} ReadsYears(i: Interval)
    requires InRange(i)
    ensures Reads(FieldText(Years(i.months), "year"), Interval(0, 0, 0), Interval(Years(i.months) * 12, 0, 0))
  {
    hide PartOf, Scan, Reads, FieldText, Years, MonthsLeft;
    var zero, value := Interval(0, 0, 0), Years(i.months);
    YearsFit(i.months);
    if value == 0 {
      ReadsNoField("year", zero);
    } else {
      ReadsField(value, "year", zero);
      PartOfYear(value);
    }
  }

  lemma {:induction false} ReadsMonths(i: Interval)
    requires InRange(i)
    ensures Reads(FieldText(MonthsLeft(i.months), "month"),
                  Interval(Years(i.months) * 12, 0, 0), Interval(i.months, 0, 0))
  {
    hide PartOf, Scan, Reads, FieldText, Years, MonthsLeft;
    var before, value := Interval(Years(i.months) * 12, 0, 0), MonthsLeft(i.months);
    YearsFit(i.months);
    if value == 0 {
      ReadsNoField("month", before);
    } else {
      ReadsField(value, "month", before);
      PartOfMonth(value);
    }
  }

  lemma {:induction false} ReadsDays(i: Interval)
    requires InRange(i)
    ensures Reads(FieldText(i.days, "day"), Interval(i.months, 0, 0), Interval(i.months, i.days, 0))
  {
    hide PartOf, Scan, Reads, FieldText, Years, MonthsLeft;
    var before := Interval(i.months, 0, 0);
    if i.days == 0 {
      ReadsNoField("day", before);
    } else {
      ReadsField(i.days, "day", before);
      PartOfDay(i.days);
    }
  }

  lemma {:induction false} ReadsDate(i: Interval)
    requires InRange(i)
    ensures Reads(DateText(i), Interval(0, 0, 0), Interval(i.months, i.days, 0))
  {
    hide Reads;
    var years := FieldText(Years(i.months), "year");
    var months := FieldText(MonthsLeft(i.months), "month");
    ReadsYears(i);
    ReadsMonths(i);
    ReadsJoined(years, months, Interval(0, 0, 0), Interval(Years(i.months) * 12, 0, 0), Interval(i.months, 0, 0));
    ReadsDays(i);
    ReadsJoined(Joined(years, months), FieldText(i.days, "day"), Interval(0, 0, 0), Interval(i.months, 0, 0),
                Interval(i.months, i.days, 0));
  }

  // ---------------------------------------------------------------------------
  // The time part
  // ---------------------------------------------------------------------------

  lemma {:induction false} FractionOfDigits(s: string)
    requires AllDigits(s) && |s| <= 6
    ensures FractionMicros(s) == NatOf(s) * Pow10(6 - |s|)
  {
    if s != "" {
      var init := s[..|s| - 1];
      FractionOfDigits(init);
      Shift(NatOf(init), DigitOf(s[|s| - 1]), 6 - |s|);
    }
  }

  lemma {:induction false} Shift(n: nat, d: nat, k: nat)
    ensures n * Pow10(k + 1) + d * Pow10(k) == (n * 10 + d) * Pow10(k)
  {
    MulAssoc(n, 10, Pow10(k));
  }

  lemma {:induction false} FractionWithoutZeros(s: string)
    requires AllDigits(s)
    ensures AllDigits(DropZeros(s)) && FractionMicros(DropZeros(s)) == FractionMicros(s)
  {
    if s != "" && s[|s| - 1] == '0' {
      FractionWithoutZeros(s[..|s| - 1]);
    }
  }

  lemma {:induction false} FractionRoundTrip(micros: nat)
    requires micros < MICROS_PER_SEC
    ensures SplitFraction(FractionText(micros)) == (micros, "")
  {
    if micros != 0 {
      var p := Padded(micros, 6);
      PaddedMicros(micros);
      FractionOfDigits(p);
      FractionWithoutZeros(p);
      var d := DropZeros(p);
      SplitDigitsOf(d, "");
      assert d + "" == d;
      assert FractionText(micros)[1..] == d;
    }
  }

  lemma {:induction false} PaddedMicros(micros: nat)
    requires micros < MICROS_PER_SEC
    ensures |Padded(micros, 6)| == 6 && NatOf(Padded(micros, 6)) * Pow10(6 - 6) == micros
  {
    assert Pow10(6) == 1_000_000 by {
      assert Pow10(3) == 1000;
      Pow10Add(3, 3);
    }
    PaddedLength(micros, 6);
    PaddedValue(micros, 6);
  }

  /** The seconds and what is behind them. */
  lemma {:induction false} SecondsOf(hours: nat, s: string, total: nat, sec: nat, micros: nat)
    requires s != "" && s[0] == ':'
    requires Checked(hours * MICROS_PER_HOUR).Ok?
    requires ReadColons(s, 0, hours * MICROS_PER_HOUR) == Ok((total, Padded(sec, 2) + FractionText(micros)))
    requires micros < MICROS_PER_SEC && total + sec * MICROS_PER_SEC + micros <= I64_MAX
    ensures ReadTime(hours, s) == Ok(Amount(total + sec * MICROS_PER_SEC + micros, 0, ""))
  {
    hide ReadColons, Padded, Accumulated, SplitDigits, SplitFraction, NatOf;
    SplitDigitsOf(Padded(sec, 2), FractionText(micros));
    PaddedValue(sec, 2);
    AccumulatedIs(Padded(sec, 2));
    FractionRoundTrip(micros);
  }

  /** The two colons and the minutes between them. */
  lemma {:induction false} ColonsOf(start: nat, min: nat, y: string)
    requires start + min * MICROS_PER_MINUTE <= I64_MAX
    ensures ReadColons(":" + (Padded(min, 2) + (":" + y)), 0, start) == Ok((start + min * MICROS_PER_MINUTE, y))
  {
    hide Accumulated, Padded;
    AccumulatedIs("");
    var x := Padded(min, 2) + (":" + y);
    assert (":" + x)[1..] == x;
    assert (":" + y)[1..] == y;
    SplitDigitsOf(Padded(min, 2), ":" + y);
    PaddedValue(min, 2);
    AccumulatedIs(Padded(min, 2));
    assert ReadColons(x, 1, start) == ReadColons(y, 2, start + min * MICROS_PER_MINUTE);
  }

  lemma {:induction false} TimeAmount(hours: string, min: nat, sec: nat, micros: nat)
    requires AllDigits(hours) && hours != "" && micros < MICROS_PER_SEC
    requires NatOf(hours) * MICROS_PER_HOUR + min * MICROS_PER_MINUTE + sec * MICROS_PER_SEC + micros <= I64_MAX
    ensures ReadAmount(hours + (":" + (Padded(min, 2) + (":" + (Padded(sec, 2) + FractionText(micros)))))) ==
            Ok(Amount(NatOf(hours) * MICROS_PER_HOUR + min * MICROS_PER_MINUTE + sec * MICROS_PER_SEC + micros, 0, ""))
  {
    hide ReadTime, ReadColons, Accumulated, Padded, FractionText;
    var y := Padded(sec, 2) + FractionText(micros);
    var tail := ":" + (Padded(min, 2) + (":" + y));
    SplitDigitsOf(hours, tail);
    AccumulatedIs(hours);
    ColonsOf(NatOf(hours) * MICROS_PER_HOUR, min, y);
    SecondsOf(NatOf(hours), tail, NatOf(hours) * MICROS_PER_HOUR + min * MICROS_PER_MINUTE, sec, micros);
  }

  lemma {:induction false} ClockParts(m: nat)
    ensures m == m / MICROS_PER_HOUR * MICROS_PER_HOUR + m / MICROS_PER_MINUTE % 60 * MICROS_PER_MINUTE
                 + m / MICROS_PER_SEC % 60 * MICROS_PER_SEC + m % MICROS_PER_SEC
  {
    assert m / MICROS_PER_MINUTE == m / MICROS_PER_SEC / 60;
    assert m / MICROS_PER_HOUR == m / MICROS_PER_MINUTE / 60;
  }

  lemma {:induction false} TimeRoundTrip(m: nat)
    requires m <= I64_MAX
    ensures ReadAmount(TimeText(m)) == Ok(Amount(m, 0, ""))
  {
    hide ReadAmount, Padded, FractionText;
    var h := DecOf(m / MICROS_PER_HOUR);
    NatOfDecOf(m / MICROS_PER_HOUR);
    ClockParts(m);
    TimeAmount(h, m / MICROS_PER_MINUTE % 60, m / MICROS_PER_SEC % 60, m % MICROS_PER_SEC);
    TimeShape(h, Padded(m / MICROS_PER_MINUTE % 60, 2),
              Padded(m / MICROS_PER_SEC % 60, 2), FractionText(m % MICROS_PER_SEC));
  }

  lemma {:induction false} TimeShape(a: string, b: string, c: string, d: string)
    ensures a + ":" + b + ":" + c + d == a + (":" + (b + (":" + (c + d))))
  {
  }

  lemma {:induction false} ScanTime(micros: int, i: Interval, found: bool)
    requires micros != 0 && -I64_MAX <= micros <= I64_MAX && i.micros == 0
    ensures SignedTime(micros) != "" && Scan(SignedTime(micros), i, found) == Ok(i.(micros := micros))
  {
    hide ReadAmount, ReadWord, TimeText, PartOf;
    var t := TimeText(Abs(micros));
    TimeRoundTrip(Abs(micros));
    NoWord();
    if micros < 0 {
      assert ("-" + t)[1..] == t;
    } else {
      assert "" + t == t;
      TimeHead(micros);
    }
  }

  // ---------------------------------------------------------------------------
  // Whole intervals
  // ---------------------------------------------------------------------------

  lemma {:induction false} DateHead(i: Interval)
    ensures DateText(i) != "" ==> IsDigit(DateText(i)[0]) || DateText(i)[0] == '-'
  {
  }

  lemma TimeHead(m: nat)
    ensures TimeText(m) != "" && IsDigit(TimeText(m)[0])
  {
  }

  lemma NoTime()
    ensures SignedTime(0) == ""
  {
  }

  lemma {:induction false} ScanWhole(i: Interval)
    requires InRange(i) && i.micros != I64_MIN
    ensures var s := Joined(DateText(i), SignedTime(i.micros));
            s != "" ==> Scan(s, Interval(0, 0, 0), false) == Ok(i)
    ensures Joined(DateText(i), SignedTime(i.micros)) == "" ==> i == Interval(0, 0, 0)
  {
    hide ReadUnit, DateText, SignedTime;
    var zero, dated := Interval(0, 0, 0), Interval(i.months, i.days, 0);
    var d, t := DateText(i), SignedTime(i.micros);
    ReadsDate(i);
    if i.micros == 0 {
      assert t == "" by {
        NoTime();
      }
      assert d + "" == d;
      assert Scan(d + "", zero, false) == Scan("", dated, d != "");
      if d == "" {
        SameState(zero, dated);
      }
    } else {
      ScanTime(i.micros, dated, d != "");
      if d == "" {
        SameState(zero, dated);
        assert Joined(d, t) == t;
      } else {
        assert Joined(d, t) == d + (" " + t);
        assert (" " + t)[1..] == t;
        assert Scan(d + (" " + t), zero, false) == Scan(" " + t, dated, true);
      }
    }
  }

  /** The text of every interval that can be printed is read back as that interval;
  only `i64::MIN` microseconds cannot be printed. */
  lemma {:induction false} IntervalRoundTrip(i: Interval)
    requires InRange(i)
    ensures if i.micros == I64_MIN then Text(i) == Err(Panicked) else Text(i).Ok?
    ensures Text(i).Ok? ==> FromText(Text(i).value) == Ok(i)
  {
    hide Scan, DateText;
    if i.micros != I64_MIN {
      ScanWhole(i);
      DateHead(i);
      var s := Joined(DateText(i), SignedTime(i.micros));
      if s == "" {
        ZeroRoundTrip();
      } else {
        assert IsDigit(s[0]) || s[0] == '-' by {
          if DateText(i) == "" {
            assert i.micros > 0 ==> SignedTime(i.micros) == TimeText(i.micros);
          }
        }
      }
    }
  }

  lemma {:induction false} ZeroRoundTrip()
    ensures FromText("00:00:00") == Ok(Interval(0, 0, 0))
  {
    hide ReadAmount, ReadWord, PartOf, Padded, NatOf, FractionText;
    var zero := Amount(0, 0, "");
    ZeroAmount();
    NoWord();
    assert ReadUnit("00:00:00", Interval(0, 0, 0), 1) == Ok((Interval(0, 0, 0), ""));
  }

  lemma {:induction false} ZeroAmount()
    ensures ReadAmount("00:00:00") == Ok(Amount(0, 0, ""))
  {
    hide ReadAmount, NatOf;
    assert Padded(0, 2) == "00" by {
      assert Zeros(1) == "0";
    }
    PaddedValue(0, 2);
    TimeAmount("00", 0, 0, 0);
    TimeShape("00", "00", "00", "");
    assert "00" + ":" + "00" + ":" + "00" + "" == "00:00:00";
  }

  /** Whatever text was accepted, its interval fits its fields, and printing it and reading
  that again gives the same interval, unless it has `i64::MIN` microseconds. */
  lemma {:induction false} AcceptedReprints(s: string)
    requires FromText(s).Ok?
    ensures var i := FromText(s).value;
            && InRange(i)
            && (Text(i).Ok? <==> i.micros != I64_MIN)
            && (Text(i).Ok? ==> FromText(Text(i).value) == Ok(i))
  {
    ReadsInRange(s);
    hide FromText, Text;
    IntervalRoundTrip(FromText(s).value);
  }

  lemma ReadsInRange(s: string)
    ensures FromText(s).Ok? ==> InRange(FromText(s).value)
  {
    hide Scan;
    if s != "" {
      ScanInRange(if s[0] == '@' then s[1..] else s, Interval(0, 0, 0), false);
    }
  }

  // ---------------------------------------------------------------------------
  // Amounts with a unit, and ago
  // ---------------------------------------------------------------------------

  lemma {:induction false} ScanAgo(i: Interval, found: bool)
    ensures Scan(" ago", i, found) == Negated(i)
  {
    assert " ago"[1..] == "ago" && "ago"[3..] == "";
    assert Scan("ago", i, found) == Negated(i);
  }

  /** An amount with any unit is read as its whole part applied; with `ago` behind it, as
  its negation, which overflows for the least value of a field. */
  lemma {:induction false} UnitMeaning(negative: bool, n: nat, f: Option<string>, word: string)
    requires n <= I64_MAX && (f.Some? ==> AllDigits(f.value))
    requires word != "" && forall k :: 0 <= k < |word| ==> IsAlpha(word[k])
    ensures var i := Applied(Interval(0, 0, 0), if negative then -(n as int) else n, 0, word);
            && FromText(AmountText(negative, n, f) + (" " + word)) == Ok(i)
            && FromText(AmountText(negative, n, f) + (" " + word + " ago")) == Negated(i)
  {
    hide Scan, Applied, Negated;
    var zero := Interval(0, 0, 0);
    var i := Applied(zero, if negative then -(n as int) else n, 0, word);
    assert IsDigit(AmountText(negative, n, f)[0]) || AmountText(negative, n, f)[0] == '-';
    ScanAmount(negative, n, f, word, "", zero, false);
    ScanAmount(negative, n, f, word, " ago", zero, false);
    assert " " + word + "" == " " + word;
    ScanAgo(i, true);
    ScanEnd(i);
  }

  // ---------------------------------------------------------------------------
  // What one unit is
  // ---------------------------------------------------------------------------

  /** An interval of one unit of a kind. */
  function UnitOf(part: Part): Interval {
    match part
    case Months(n) => Interval(n, 0, 0)
    case Days(n) => Interval(0, n, 0)
    case Micros(n) => Interval(0, 0, n)
  }

  /** One unit, by its name, in any case. */
  ghost predicate OneIs(name: string, i: Interval) {
    forall word :: Lower(word) == name && IsWord(word) ==> FromText("1 " + word) == Ok(i)
  }

  predicate IsWord(word: string) {
    word != "" && forall k :: 0 <= k < |word| ==> IsAlpha(word[k])
  }

  lemma {:induction false} ReadsOne(name: string, part: Part)
    requires PartNamed(name) == Some(part)
    requires 1 <= part.factor <= if part.Micros? then I64_MAX else I32_MAX
    ensures OneIs(name, UnitOf(part))
  {
    hide PartNamed, FromText, Lower, Applied, UnitOf;
    forall word | Lower(word) == name && IsWord(word) ensures FromText("1 " + word) == Ok(UnitOf(part)) {
      OneText(word);
      UnitMeaning(false, 1, None, word);
      AppliedOne(word, part);
    }
  }

  lemma AppliedOne(word: string, part: Part)
    requires word != "" && PartOf(word) == Some(part)
    requires 1 <= part.factor <= if part.Micros? then I64_MAX else I32_MAX
    ensures Applied(Interval(0, 0, 0), 1, 0, word) == UnitOf(part)
  {
    hide PartOf;
  }

  lemma OneText(word: string)
    ensures AmountText(false, 1, None) + (" " + word) == "1 " + word
  {
    assert DecOf(1) == "1";
    assert "1" + "" == "1" && "" + "1" == "1" && "1" + (" " + word) == "1 " + word;
  }

  lemma MillenniumNamed()
    ensures PartNamed("millennium") == Some(Months(12_000))
    ensures PartNamed("millennia") == Some(Months(12_000))
  {
  }

  lemma CenturyNamed()
    ensures PartNamed("century") == Some(Months(1200))
    ensures PartNamed("centuries") == Some(Months(1200))
  {
  }

  lemma DecadeNamed()
    ensures PartNamed("decade") == Some(Months(120))
    ensures PartNamed("decades") == Some(Months(120))
  {
  }

  lemma YearNamed()
    ensures PartNamed("year") == Some(Months(12))
    ensures PartNamed("years") == Some(Months(12))
    ensures PartNamed("y") == Some(Months(12))
  {
  }

  lemma QuarterNamed()
    ensures PartNamed("quarter") == Some(Months(3))
    ensures PartNamed("quarters") == Some(Months(3))
  {
  }

  lemma MonthNamed()
    ensures PartNamed("month") == Some(Months(1))
    ensures PartNamed("months") == Some(Months(1))
    ensures PartNamed("mon") == Some(Months(1))
  {
  }

  lemma DayNamed()
    ensures PartNamed("day") == Some(Days(1))
    ensures PartNamed("days") == Some(Days(1))
    ensures PartNamed("d") == Some(Days(1))
  {
  }

  lemma WeekNamed()
    ensures PartNamed("week") == Some(Days(7))
    ensures PartNamed("weeks") == Some(Days(7))
    ensures PartNamed("w") == Some(Days(7))
  {
  }

  lemma MicrosecondNamed()
    ensures PartNamed("microsecond") == Some(Micros(1))
    ensures PartNamed("microseconds") == Some(Micros(1))
    ensures PartNamed("us") == Some(Micros(1))
  {
  }

  lemma MillisecondNamed1()
    ensures PartNamed("millisecond") == Some(Micros(1000))
  {
  }

  lemma MillisecondNamed2()
    ensures PartNamed("milliseconds") == Some(Micros(1000))
  {
  }

  lemma MillisecondNamed3()
    ensures PartNamed("ms") == Some(Micros(1000))
  {
  }

  lemma SecondNamed1()
    ensures PartNamed("second") == Some(Micros(1_000_000))
  {
  }

  lemma SecondNamed2()
    ensures PartNamed("seconds") == Some(Micros(1_000_000))
  {
  }

  lemma SecondNamed3()
    ensures PartNamed("s") == Some(Micros(1_000_000))
  {
  }

  lemma MinuteNamed1()
    ensures PartNamed("minute") == Some(Micros(60_000_000))
  {
  }

  lemma MinuteNamed2()
    ensures PartNamed("minutes") == Some(Micros(60_000_000))
  {
  }

  lemma MinuteNamed3()
    ensures PartNamed("m") == Some(Micros(60_000_000))
  {
  }

  lemma HourNamed1()
    ensures PartNamed("hour") == Some(Micros(3_600_000_000))
  {
  }

  lemma HourNamed2()
    ensures PartNamed("hours") == Some(Micros(3_600_000_000))
  {
  }

  lemma HourNamed3()
    ensures PartNamed("h") == Some(Micros(3_600_000_000))
  {
  }

  /** Every unit that there is, by its names and its size: in months, in days or in
  microseconds. */
  lemma {:induction false} UnitValues()
    ensures OneIs("millennium", Interval(12_000, 0, 0))
    ensures OneIs("millennia", Interval(12_000, 0, 0))
    ensures OneIs("century", Interval(1200, 0, 0))
    ensures OneIs("centuries", Interval(1200, 0, 0))
    ensures OneIs("decade", Interval(120, 0, 0))
    ensures OneIs("decades", Interval(120, 0, 0))
    ensures OneIs("year", Interval(12, 0, 0))
    ensures OneIs("years", Interval(12, 0, 0))
    ensures OneIs("y", Interval(12, 0, 0))
    ensures OneIs("quarter", Interval(3, 0, 0))
    ensures OneIs("quarters", Interval(3, 0, 0))
    ensures OneIs("month", Interval(1, 0, 0))
    ensures OneIs("months", Interval(1, 0, 0))
    ensures OneIs("mon", Interval(1, 0, 0))
    ensures OneIs("day", Interval(0, 1, 0))
    ensures OneIs("days", Interval(0, 1, 0))
    ensures OneIs("d", Interval(0, 1, 0))
    ensures OneIs("week", Interval(0, 7, 0))
    ensures OneIs("weeks", Interval(0, 7, 0))
    ensures OneIs("w", Interval(0, 7, 0))
    ensures OneIs("microsecond", Interval(0, 0, 1))
    ensures OneIs("microseconds", Interval(0, 0, 1))
    ensures OneIs("us", Interval(0, 0, 1))
    ensures OneIs("millisecond", Interval(0, 0, 1000))
    ensures OneIs("milliseconds", Interval(0, 0, 1000))
    ensures OneIs("ms", Interval(0, 0, 1000))
    ensures OneIs("second", Interval(0, 0, 1_000_000))
    ensures OneIs("seconds", Interval(0, 0, 1_000_000))
    ensures OneIs("s", Interval(0, 0, 1_000_000))
    ensures OneIs("minute", Interval(0, 0, 60_000_000))
    ensures OneIs("minutes", Interval(0, 0, 60_000_000))
    ensures OneIs("m", Interval(0, 0, 60_000_000))
    ensures OneIs("hour", Interval(0, 0, 3_600_000_000))
    ensures OneIs("hours", Interval(0, 0, 3_600_000_000))
    ensures OneIs("h", Interval(0, 0, 3_600_000_000))
  {
    hide OneIs, PartNamed;
    MillenniumNamed();
    ReadsOne("millennium", Months(12_000));
    ReadsOne("millennia", Months(12_000));
    CenturyNamed();
    ReadsOne("century", Months(1200));
    ReadsOne("centuries", Months(1200));
    DecadeNamed();
    ReadsOne("decade", Months(120));
    ReadsOne("decades", Months(120));
    YearNamed();
    ReadsOne("year", Months(12));
    ReadsOne("years", Months(12));
    ReadsOne("y", Months(12));
    QuarterNamed();
    ReadsOne("quarter", Months(3));
    ReadsOne("quarters", Months(3));
    MonthNamed();
    ReadsOne("month", Months(1));
    ReadsOne("months", Months(1));
    ReadsOne("mon", Months(1));
    DayNamed();
    ReadsOne("day", Days(1));
    ReadsOne("days", Days(1));
    ReadsOne("d", Days(1));
    WeekNamed();
    ReadsOne("week", Days(7));
    ReadsOne("weeks", Days(7));
    ReadsOne("w", Days(7));
    MicrosecondNamed();
    ReadsOne("microsecond", Micros(1));
    ReadsOne("microseconds", Micros(1));
    ReadsOne("us", Micros(1));
    MillisecondNamed1();
    MillisecondNamed2();
    MillisecondNamed3();
    ReadsOne("millisecond", Micros(1000));
    ReadsOne("milliseconds", Micros(1000));
    ReadsOne("ms", Micros(1000));
    SecondNamed1();
    SecondNamed2();
    SecondNamed3();
    ReadsOne("second", Micros(1_000_000));
    ReadsOne("seconds", Micros(1_000_000));
    ReadsOne("s", Micros(1_000_000));
    MinuteNamed1();
    MinuteNamed2();
    MinuteNamed3();
    ReadsOne("minute", Micros(60_000_000));
    ReadsOne("minutes", Micros(60_000_000));
    ReadsOne("m", Micros(60_000_000));
    HourNamed1();
    HourNamed2();
    HourNamed3();
    ReadsOne("hour", Micros(3_600_000_000));
    ReadsOne("hours", Micros(3_600_000_000));
    ReadsOne("h", Micros(3_600_000_000));
  }

  /** There is no other name of a unit. */
  lemma NoOtherUnit(word: string)
    requires PartNamed(word).Some?
    ensures word in ["millennium", "millennia", "century", "centuries", "decade", "decades", "year", "years", "y",
                     "quarter", "quarters", "month", "months", "mon", "day", "days", "d", "week", "weeks", "w",
                     "microsecond", "microseconds", "us", "millisecond", "milliseconds", "ms",
                     "second", "seconds", "s", "minute", "minutes", "m", "hour", "hours", "h"]
  {
  }

  /** `number` units of the kind that `word` names fit the field of an interval. */
  predicate UnitFits(number: int, word: string) {
    match PartOf(word)
    case None => false
    case Some(Micros(factor)) => IsI64(number * factor)
    case Some(part) => IsI32(number * part.factor)
  }

  /** An amount is accepted with any word behind it, and is lost exactly when the word is
  no unit or the field cannot hold it. */
  lemma {:induction false} AmountIgnoredIff(negative: bool, n: nat, f: Option<string>, word: string)
    requires n <= I64_MAX && (f.Some? ==> AllDigits(f.value))
    requires word != "" && forall k :: 0 <= k < |word| ==> IsAlpha(word[k])
    ensures FromText(AmountText(negative, n, f) + (" " + word)) == Ok(Interval(0, 0, 0)) <==>
            n == 0 || !UnitFits(if negative then -(n as int) else n, word)
  {
    hide FromText, Applied, UnitFits, AmountText;
    UnitMeaning(negative, n, f, word);
    AppliedNothing(if negative then -(n as int) else n, word);
  }

  lemma {:induction false} AppliedNothing(number: int, word: string)
    requires word != ""
    ensures Applied(Interval(0, 0, 0), number, 0, word) == Interval(0, 0, 0) <==>
            number == 0 || !UnitFits(number, word)
  {
    hide PartOf, Added;
    UnitFactor(word);
    match PartOf(word)
    case None =>
    case Some(part) =>
      AddedNothing(number, part.factor, IsI32);
      AddedNothing(number, part.factor, IsI64);
  }

  lemma AddedNothing(number: int, factor: int, fits: int -> bool)
    requires factor >= 1
    ensures Added(0, number, factor, fits) == 0 <==> number == 0 || !(IsI64(number * factor) && fits(number * factor))
  {
    TimesPositive(number, factor);
  }

  lemma UnitFactor(word: string)
    ensures PartOf(word).Some? ==> PartOf(word).value.factor >= 1
  {
  }

  lemma TimesPositive(x: int, y: int)
    requires y >= 1
    ensures x * y == 0 <==> x == 0
  {
  }

  /** An unknown unit is accepted, and its amount ignored. */
  lemma {:induction false} UnknownUnitIgnored()
    ensures FromText("5 parsecs") == Ok(Interval(0, 0, 0))
  {
    hide FromText, DecOf;
    assert AmountText(false, 5, None) + (" " + "parsecs") == "5 parsecs" by {
      assert DecOf(5) == "5" by {
        FiveText();
      }
      assert "" + ("5" + "") == "5" && "5" + (" " + "parsecs") == "5 parsecs";
    }
    UnitMeaning(false, 5, None, "parsecs");
    NoSuchUnit();
  }

  lemma FiveText()
    ensures DecOf(5) == "5"
  {
  }

  lemma NoSuchUnit()
    ensures PartOf("parsecs") == None
  {
    hide Lower;
    LowerIs("parsecs");
    assert |"parsecs"| == 7;
    assert "parsecs"[1] == 'a';
    assert "century"[1] == 'e' && "decades"[1] == 'e' && "quarter"[1] == 'u' && "minutes"[1] == 'i';
    assert "seconds"[1] == 'e';
  }

  lemma ScanEnd(i: Interval)
    ensures Scan("", i, true) == Ok(i)
  {
  }
}
