/** Printing and reading intervals as the source runs them: into a fixed buffer of 70
bytes, and with a position over the text (`sql/src/value/interval.rs`); and the
fields of an Arrow interval (`sql/src/value/arrow_decoder.rs`). */
module IntervalCodec {
  import opened Results
  import opened Digits
  import opened Intervals
  import IntervalRoundTrip

  const BUFFER_LENGTH := 70

  // ---------------------------------------------------------------------------
  // The buffer is large enough
  // ---------------------------------------------------------------------------

  lemma {:induction false} DigitCount(n: nat, k: nat)
    requires (k == 2 && n < 100) || (k == 9 && n < 1_000_000_000) || (k == 10 && n < 10_000_000_000)
    ensures |DecOf(n)| <= k
  {
    assert Pow10(2) == 100 && Pow10(3) == 1000;
    Pow10Add(3, 3);
    Pow10Add(6, 3);
    Pow10Add(9, 1);
    DecOfLength(n, k);
  }

  lemma {:induction false} DateLength(i: Interval)
    requires InRange(i)
    ensures |FieldText(Years(i.months), "year")| <= 16
    ensures |FieldText(MonthsLeft(i.months), "month")| <= 10
    ensures |FieldText(i.days, "day")| <= 16
    ensures |DateText(i)| <= 44
  {
    IntervalRoundTrip.YearsFit(i.months);
    DigitCount(Abs(Years(i.months)), 9);
    DigitCount(Abs(MonthsLeft(i.months)), 2);
    DigitCount(Abs(i.days), 10);
  }

  lemma {:induction false} DroppedLength(s: string)
    ensures |DropZeros(s)| <= |s|
  {
    if s != "" && s[|s| - 1] == '0' {
      DroppedLength(s[..|s| - 1]);
    }
  }

  lemma {:induction false} TimeLength(m: nat)
    requires m <= I64_MAX
    ensures |TimeText(m)| <= 23
    ensures m % MICROS_PER_SEC != 0 ==> |Padded(m % MICROS_PER_SEC, 6)| == 6
    ensures |TimeText(m)| - |FractionText(m % MICROS_PER_SEC)| <= 16
  {
    hide FractionText, Padded;
    DigitCount(m / MICROS_PER_HOUR, 10);
    assert Pow10(2) == 100;
    PaddedLength(m / MICROS_PER_MINUTE % 60, 2);
    PaddedLength(m / MICROS_PER_SEC % 60, 2);
    FractionLength(m % MICROS_PER_SEC);
  }

  lemma {:induction false} FractionLength(micros: nat)
    requires micros < MICROS_PER_SEC
    ensures |FractionText(micros)| <= 7 && |Padded(micros, 6)| == 6
  {
    IntervalRoundTrip.PaddedMicros(micros);
    DroppedLength(Padded(micros, 6));
  }

  /** At most 69 of the 70 bytes are used. */
  lemma {:induction false} TextLength(i: Interval)
    requires InRange(i) && i.micros != I64_MIN
    ensures |Text(i).value| < BUFFER_LENGTH
  {
    hide TimeText, DateText;
    DateLength(i);
    TimeLength(Abs(i.micros));
  }

  /** Trimming stops at a digit: only zero has no other digits than zeros. */
  lemma {:induction false} DroppedToNothing(s: string)
    requires AllDigits(s) && DropZeros(s) == ""
    ensures NatOf(s) == 0
  {
    if s != "" {
      DroppedToNothing(s[..|s| - 1]);
    }
  }

  class IntervalBuffer {
    const buffer: array<char>
    var length: nat

    ghost predicate Valid()
      reads this
    {
      buffer.Length == BUFFER_LENGTH && length <= BUFFER_LENGTH
    }

    function Written(): string
      requires Valid()
      reads this, buffer
    {
      buffer[..length]
    }

    constructor ()
      ensures Valid() && Written() == "" && fresh(buffer)
    {
      buffer := new char[BUFFER_LENGTH](_ => ' ');
      length := 0;
    }

    /** Copies `s` behind what is written; the slice that it takes must be in range. */
    method CopyFromSlice(s: string)
      requires Valid() && length + |s| <= BUFFER_LENGTH
      modifies this, buffer
      ensures Valid() && Written() == old(Written()) + s
    {
      var start := length;
      for k := 0 to |s|
        invariant length == start + k
        invariant buffer[..length] == old(buffer[..length]) + s[..k]
      {
        buffer[length] := s[k];
        length := length + 1;
      }
    }

    method FormatSignedNumber(value: int)
      requires Valid() && length + |IntText(value)| <= BUFFER_LENGTH
      modifies this, buffer
      ensures Valid() && Written() == old(Written()) + IntText(value)
    {
      CopyFromSlice(IntText(value));
    }

    method FormatTwoDigits(value: nat)
      requires Valid() && length + |Padded(value, 2)| <= BUFFER_LENGTH
      modifies this, buffer
      ensures Valid() && Written() == old(Written()) + Padded(value, 2)
    {
      CopyFromSlice(Padded(value, 2));
    }

    method FormatIntervalValue(value: int, name: string)
      requires Valid() && length + 1 + |FieldText(value, name)| <= BUFFER_LENGTH
      modifies this, buffer
      ensures Valid() && Written() == Joined(old(Written()), FieldText(value, name))
    {
      hide IntText;
      if value == 0 {
        return;
      }
      ghost var before := Written();
      if length != 0 {
        CopyFromSlice(" ");
      }
      FieldWritten(Written(), value, name);
      FormatSignedNumber(value);
      CopyFromSlice(" " + name);
      if value != 1 && value != -1 {
        CopyFromSlice("s");
      }
    }

    /** Six digits, of which the trailing zeros are taken back. */
    method FormatMicros(micros: nat)
      requires Valid() && 0 < micros < MICROS_PER_SEC && length + 6 <= BUFFER_LENGTH
      modifies this, buffer
      ensures Valid() && Written() == old(Written()) + DropZeros(Padded(micros, 6))
    {
      ghost var before, s := Written(), Padded(micros, 6);
      FractionLength(micros);
      PaddedValue(micros, 6);
      CopyFromSlice(Padded(micros, 6));
      ghost var k: nat := 6;
      assert s[..6] == s;
      while length > 0 && buffer[length - 1] == '0'
        invariant k <= 6 && Valid() && length == |before| + k
        invariant buffer[..length] == before + s[..k]
        invariant DropZeros(s[..k]) == DropZeros(s)
      {
        if k == 0 {
          DroppedToNothing(s);
        }
        TakeBack(before, s, k);
        assert buffer[..length - 1] == buffer[..length][..length - 1];
        assert buffer[length - 1] == buffer[..length][length - 1];
        length := length - 1;
        k := k - 1;
      }
      if k == 0 {
        DroppedToNothing(s);
      }
      TakeBack(before, s, k);
      assert buffer[length - 1] == buffer[..length][length - 1];
    }

    method FormatTime(m: nat)
      requires Valid() && m <= I64_MAX && length + 23 <= BUFFER_LENGTH
      modifies this, buffer
      ensures Valid() && Written() == old(Written()) + TimeText(m)
    {
      hide Padded, FractionText, DecOf, IntText;
      ghost var before := Written();
      TimeLength(m);
      var hour, min, sec, micros := SplitClock(m);
      assert IntText(hour) == DecOf(hour) by {
        SignlessText(hour);
      }
      FormatSignedNumber(hour);
      CopyFromSlice(":");
      FormatTwoDigits(min);
      CopyFromSlice(":");
      FormatTwoDigits(sec);
      FormatFraction(micros);
      ClockShape(before, DecOf(hour), Padded(min, 2), Padded(sec, 2), FractionText(micros));
    }

    method FormatFraction(micros: nat)
      requires Valid() && micros < MICROS_PER_SEC && length + 7 <= BUFFER_LENGTH
      modifies this, buffer
      ensures Valid() && Written() == old(Written()) + FractionText(micros)
    {
      hide Padded, DropZeros;
      if micros != 0 {
        ghost var before := Written();
        CopyFromSlice(".");
        FormatMicros(micros);
        assert before + "." + DropZeros(Padded(micros, 6)) == before + ("." + DropZeros(Padded(micros, 6)));
      }
    }

    method FormatDate(i: Interval)
      requires Valid() && length == 0 && InRange(i)
      modifies this, buffer
      ensures Valid() && Written() == DateText(i)
    {
      hide FieldText, Years, MonthsLeft, Joined;
      DateLength(i);
      ZeroFields();
      YearsAre(i.months);
      if i.months != 0 {
        var years := if i.months < 0 then -((-i.months) / 12) else i.months / 12;
        var months := i.months - years * 12;
        JoinedLaws(FieldText(years, "year"));
        FormatIntervalValue(years, "year");
        FormatIntervalValue(months, "month");
      }
      ghost var sofar := Written();
      JoinedLaws("");
      JoinedLaws(sofar);
      JoinedLength(FieldText(Years(i.months), "year"), FieldText(MonthsLeft(i.months), "month"));
      if i.days != 0 {
        FormatIntervalValue(i.days, "day");
      }
    }

    /** The length printed. Every write lies within the buffer. */
    method Format(i: Interval) returns (r: Result<nat>)
      requires Valid() && length == 0 && InRange(i)
      modifies this, buffer
      ensures Valid()
      ensures match Text(i)
              case Ok(s) => r == Ok(|s|) && |s| < BUFFER_LENGTH && Written() == s
              case Err(e) => r == Err(e)
    {
      hide FieldText, TimeText, Joined;
      DateLength(i);
      FormatDate(i);
      JoinedLaws(Written());
      if i.micros != 0 {
        if i.micros == I64_MIN {
          return Err(Panicked);
        }
        TextLength(i);
        FormatSigned(i.micros);
      } else if length == 0 {
        CopyFromSlice("00:00:00");
        return Ok(8);
      }
      return Ok(length);
    }

    /** The time, with a space before it and a sign where they are due. */
    method FormatSigned(micros: int)
      requires Valid() && micros != 0 && -I64_MAX <= micros <= I64_MAX && length <= 44
      modifies this, buffer
      ensures Valid() && Written() == Joined(old(Written()), SignedTime(micros)) != ""
    {
      hide TimeText, SignedTime, Joined;
      ghost var before := Written();
      JoinedTime(before, micros);
      if length != 0 {
        CopyFromSlice(" ");
      } else {
        assert before == "" && before + "" == before;
      }
      ghost var spaced := Written();
      if micros < 0 {
        CopyFromSlice("-");
      } else {
        assert spaced + "" == spaced;
      }
      FormatTime(Abs(micros));
    }
  }

  /** Takes hours, minutes and seconds off, one after the other. */
  method SplitClock(m: nat) returns (hour: nat, min: nat, sec: nat, micros: nat)
    ensures hour == m / MICROS_PER_HOUR && min == m / MICROS_PER_MINUTE % 60
    ensures sec == m / MICROS_PER_SEC % 60 && micros == m % MICROS_PER_SEC
  {
    SameClock(m);
    micros := m;
    hour := micros / MICROS_PER_HOUR;
    micros := micros - hour * MICROS_PER_HOUR;
    min := micros / MICROS_PER_MINUTE;
    micros := micros - min * MICROS_PER_MINUTE;
    sec := micros / MICROS_PER_SEC;
    micros := micros - sec * MICROS_PER_SEC;
  }

  /** The time behind the text so far, piece by piece. */
  lemma JoinedTime(before: string, micros: int)
    requires micros != 0
    ensures Joined(before, SignedTime(micros)) != ""
    ensures Joined(before, SignedTime(micros))
            == before + (if before == "" then "" else " ") + (if micros < 0 then "-" else "") + TimeText(Abs(micros))
  {
    hide TimeText;
    IntervalRoundTrip.TimeHead(Abs(micros));
    var sign, t := if micros < 0 then "-" else "", TimeText(Abs(micros));
    assert before + " " + (sign + t) == before + " " + sign + t;
    assert before + (sign + t) == before + "" + sign + t;
    assert "" + (sign + t) == sign + t;
  }

  lemma SignlessText(n: nat)
    ensures IntText(n) == DecOf(n)
  {
  }

  lemma {:induction false} ClockShape(before: string, h: string, m: string, s: string, f: string)
    ensures before + h + ":" + m + ":" + s + f == before + (h + ":" + m + ":" + s + f)
  {
  }

  lemma {:induction false} FieldWritten(before: string, value: int, name: string)
    requires value != 0
    ensures var plural := if value != 1 && value != -1 then "s" else "";
            before + IntText(value) + (" " + name) + plural == before + FieldText(value, name)
    ensures FieldText(value, name) != "" && |FieldText(value, name)| >= |IntText(value)| + 1 + |name|
  {
    hide IntText;
  }

  lemma {:induction false} TakeBack(before: string, s: string, k: nat)
    requires 0 < k <= |s|
    ensures (before + s[..k])[|before| + k - 1] == s[k - 1] == s[..k][k - 1]
    ensures (before + s[..k])[..|before| + k - 1] == before + s[..k - 1]
    ensures s[..k][..k - 1] == s[..k - 1]
  {
  }

  lemma {:induction false} SameClock(m: nat)
    ensures var r1 := m - m / MICROS_PER_HOUR * MICROS_PER_HOUR;
            var r2 := r1 - r1 / MICROS_PER_MINUTE * MICROS_PER_MINUTE;
            && r1 / MICROS_PER_MINUTE == m / MICROS_PER_MINUTE % 60
            && r2 / MICROS_PER_SEC == m / MICROS_PER_SEC % 60
            && r2 - r2 / MICROS_PER_SEC * MICROS_PER_SEC == m % MICROS_PER_SEC
  {
    IntervalRoundTrip.ClockParts(m);
  }

  lemma YearsAre(months: int)
    ensures Years(months) == if months < 0 then -((-months) / 12) else months / 12
    ensures MonthsLeft(months) == months - Years(months) * 12
  {
  }

  lemma ZeroFields()
    ensures FieldText(Years(0), "year") == "" && FieldText(MonthsLeft(0), "month") == "" && FieldText(0, "day") == ""
  {
  }

  lemma JoinedLength(text: string, field: string)
    ensures |Joined(text, field)| <= |text| + |field| + 1
  {
  }

  lemma JoinedLaws(text: string)
    ensures Joined(text, "") == text && Joined("", text) == text
  {
  }
}
