/** The text of an interval as a function: what `IntervalToStringCast::format` prints
and what `Interval::from_cstring` makes of any text (`sql/src/value/interval.rs`). */
module Intervals {
  import opened Results
  import opened Digits
  import opened Cursors

  datatype Interval = Interval(months: int, days: int, micros: int)

  /** The fields are an `i32`, an `i32` and an `i64`. */
  predicate InRange(i: Interval) {
    I32_MIN <= i.months <= I32_MAX && I32_MIN <= i.days <= I32_MAX && I64_MIN <= i.micros <= I64_MAX
  }

  const MICROS_PER_SEC := 1_000_000
  const MICROS_PER_MINUTE := 60 * MICROS_PER_SEC
  const MICROS_PER_HOUR := 60 * MICROS_PER_MINUTE

  // ---------------------------------------------------------------------------
  // Printing
  // ---------------------------------------------------------------------------

  /** Years and the months left over, truncating toward zero. */
  function Years(months: int): int {
    if months < 0 then -((-months) / 12) else months / 12
  }

  function MonthsLeft(months: int): int {
    months - Years(months) * 12
  }

  /** A field that is zero is not printed; one that is not 1 or -1 is a plural. */
  function FieldText(value: int, name: string): string {
    if value == 0 then ""
    else IntText(value) + " " + name + (if value != 1 && value != -1 then "s" else "")
  }

  /** `field` behind the text so far, with a space between them. */
  function Joined(text: string, field: string): string {
    if text == "" || field == "" then text + field else text + " " + field
  }

  function DropZeros(s: string): string {
    if s != "" && s[|s| - 1] == '0' then DropZeros(s[..|s| - 1]) else s
  }

  function FractionText(micros: nat): string {
    if micros == 0 then "" else "." + DropZeros(Padded(micros, 6))
  }

  /** Hours, minutes, seconds and microseconds of a positive duration. */
  function TimeText(m: nat): string {
    DecOf(m / MICROS_PER_HOUR) + ":" + Padded(m / MICROS_PER_MINUTE % 60, 2) + ":"
    + Padded(m / MICROS_PER_SEC % 60, 2) + FractionText(m % MICROS_PER_SEC)
  }

  function SignedTime(micros: int): string {
    if micros == 0 then "" else (if micros < 0 then "-" else "") + TimeText(Abs(micros))
  }

  function DateText(i: Interval): string {
    Joined(Joined(FieldText(Years(i.months), "year"), FieldText(MonthsLeft(i.months), "month")),
           FieldText(i.days, "day"))
  }

  /** The printed interval. Negating `i64::MIN` overflows. */
  function Text(i: Interval): Result<string> {
    if i.micros == I64_MIN then Err(Panicked)
    else
      var s := Joined(DateText(i), SignedTime(i.micros));
      Ok(if s == "" then "00:00:00" else s)
  }

  // ---------------------------------------------------------------------------
  // Reading
  // ---------------------------------------------------------------------------

  predicate IsBlank(c: char) {
    c == ' ' || c == '\t' || c == '\n'
  }

  predicate IsAlpha(c: char) {
    'a' <= c <= 'z' || 'A' <= c <= 'Z'
  }

  /** The digits at the front of `s`, and the rest. */
  function SplitDigits(s: string): (r: (string, string))
    ensures |r.1| <= |s|
    ensures s != "" && !IsDigit(s[0]) ==> r == ("", s)
  {
    var n := PrefixLen(s, IsDigit);
    (s[..n], s[n..])
  }

  /** An integer accumulated digit by digit in an `i64`: the product is checked, the
  sum is not. */
  function Accumulated(digits: string): Result<nat> {
    if digits == "" then Ok(0)
    else
      var n :- Accumulated(digits[..|digits| - 1]);
      var c := digits[|digits| - 1];
      if 10 * n > I64_MAX then Err(Rejected)
      else if !IsDigit(c) || 10 * n + DigitOf(c) > I64_MAX then Err(Panicked)
      else Ok(10 * n + DigitOf(c))
  }

  /** A fraction of a second in microseconds: its first six digits. */
  function FractionMicros(f: string): nat {
    if f == "" then 0
    else
      var c := f[|f| - 1];
      FractionMicros(f[..|f| - 1]) + if IsDigit(c) && |f| <= 6 then DigitOf(c) * Pow10(6 - |f|) else 0
  }

  /** The fraction behind a point, if `s` starts with one, and the rest. */
  function SplitFraction(s: string): (r: (nat, string))
    ensures |r.1| <= |s|
  {
    if s != "" && s[0] == '.' then
      var (f, rest) := SplitDigits(s[1..]);
      (FractionMicros(f), rest)
    else (0, s)
  }

  /** A number with its fraction and what follows: plain, or a time of day whose
  value is in microseconds. */
  datatype Amount = Amount(number: int, fraction: int, rest: string)

  function Checked(x: int): Result<int> {
    if I64_MIN <= x <= I64_MAX then Ok(x) else Err(Panicked)
  }

  /** The parts between colons, of which there are at most two. */
  function ReadColons(s: string, colons: nat, total: nat): (r: Result<(nat, string)>)
    ensures r.Ok? ==> |r.value.1| <= |s|
    ensures r.Ok? && colons < 2 && s != "" && s[0] == ':' ==> |r.value.1| < |s|
    decreases |s|, 2 - colons
  {
    if colons >= 2 || s == "" then Ok((total, s))
    else
      var (digits, rest) := SplitDigits(s);
      var minute :- Accumulated(digits);
      var minutes :- Checked(minute * MICROS_PER_MINUTE);
      var sum :- Checked(total + minutes);
      if rest != "" && rest[0] == ':' then ReadColons(rest[1..], colons + 1, sum) else Ok((sum, rest))
  }

  /** The seconds with their fraction, added to the `total` so far. */
  function ReadSeconds(total: nat, s: string): (r: Result<Amount>)
    ensures r.Ok? ==> |r.value.rest| <= |s|
  {
    var (digits, tail) := SplitDigits(s);
    var seconds :- Accumulated(digits);
    var (fraction, rest) := SplitFraction(tail);
    var whole :- Checked(seconds * MICROS_PER_SEC);
    var micros :- Checked(whole + fraction);
    var sum :- Checked(total + micros);
    Ok(Amount(sum, 0, rest))
  }

  function ReadTime(hours: nat, s: string): (r: Result<Amount>)
    requires s != "" && s[0] == ':'
    ensures r.Ok? ==> |r.value.rest| < |s|
  {
    var start :- Checked(hours * MICROS_PER_HOUR);
    var (total, tail) :- ReadColons(s, 0, start);
    if tail == "" then Ok(Amount(total, 0, "")) else ReadSeconds(total, tail)
  }

  function ReadAmount(s: string): (r: Result<Amount>)
    ensures r.Ok? ==> |r.value.rest| < |s|
  {
    var (digits, tail) := SplitDigits(s);
    var number :- Accumulated(digits);
    var (fraction, rest) := SplitFraction(tail);
    if rest != "" && rest[0] == ':' then ReadTime(number, rest)
    else if |rest| == |s| then Err(Rejected)
    else Ok(Amount(number, fraction, rest))
  }

  /** The word behind any blanks, and the rest. */
  function ReadWord(s: string): (r: (string, string))
    ensures |r.1| <= |s|
  {
    var tail := s[PrefixLen(s, IsBlank)..];
    var n := PrefixLen(tail, IsAlpha);
    (tail[..n], tail[n..])
  }

  function Lower(s: string): string {
    seq(|s|, i requires 0 <= i < |s| => if 'A' <= s[i] <= 'Z' then (s[i] as int + 32) as char else s[i])
  }

  /** Which field a unit counts in, and how much of it one unit is. */
  datatype Part = Months(factor: int) | Days(factor: int) | Micros(factor: int)

  function PartOf(word: string): Option<Part> {
    PartNamed(Lower(word))
  }

  function PartNamed(w: string): Option<Part> {
    if w == "millennium" || w == "millennia" then Some(Months(12000))
    else if w == "century" || w == "centuries" then Some(Months(1200))
    else if w == "decade" || w == "decades" then Some(Months(120))
    else if w == "year" || w == "years" || w == "y" then Some(Months(12))
    else if w == "quarter" || w == "quarters" then Some(Months(3))
    else if w == "month" || w == "months" || w == "mon" then Some(Months(1))
    else if w == "day" || w == "days" || w == "d" then Some(Days(1))
    else if w == "week" || w == "weeks" || w == "w" then Some(Days(7))
    else if w == "microsecond" || w == "microseconds" || w == "us" then Some(Micros(1))
    else if w == "millisecond" || w == "milliseconds" || w == "ms" then Some(Micros(1000))
    else if w == "second" || w == "seconds" || w == "s" then Some(Micros(MICROS_PER_SEC))
    else if w == "minute" || w == "minutes" || w == "m" then Some(Micros(MICROS_PER_MINUTE))
    else if w == "hour" || w == "hours" || w == "h" then Some(Micros(MICROS_PER_HOUR))
    else None
  }

  predicate IsI32(x: int) {
    I32_MIN <= x <= I32_MAX
  }

  predicate IsI64(x: int) {
    I64_MIN <= x <= I64_MAX
  }

  /** `x` plus `number` units where every step fits, and `x` otherwise. */
  function Added(x: int, number: int, factor: int, fits: int -> bool): int {
    if IsI64(number * factor) && fits(number * factor) && fits(x + number * factor) then x + number * factor else x
  }

  /** Adds an amount to an interval. The caller ignores the errors, so an amount that
  does not fit, or whose unit is unknown, changes nothing; without a unit, the
  fraction is added on its own. */
  function Applied(i: Interval, number: int, fraction: int, word: string): Interval {
    if word == "" then
      var once := Added(i.micros, number, 1, IsI64);
      i.(micros := if IsI64(i.micros + number) then Added(once, fraction, 1, IsI64) else once)
    else
      match PartOf(word)
      case None => i
      case Some(Months(f)) => i.(months := Added(i.months, number, f, IsI32))
      case Some(Days(f)) => i.(days := Added(i.days, number, f, IsI32))
      case Some(Micros(f)) => i.(micros := Added(i.micros, number, f, IsI64))
  }

  predicate IsAgo(s: string) {
    |s| >= 3 && (s[0] == 'a' || s[0] == 'A') && (s[1] == 'g' || s[1] == 'G') && (s[2] == 'o' || s[2] == 'O')
  }

  function Negated(i: Interval): Result<Interval> {
    if i.months == I32_MIN || i.days == I32_MIN || i.micros == I64_MIN then Err(Panicked)
    else Ok(Interval(-i.months, -i.days, -i.micros))
  }

  /** An amount and its unit at the front of `s`, added to `i`. */
  function ReadUnit(s: string, i: Interval, sign: int): (r: Result<(Interval, string)>)
    ensures r.Ok? ==> |r.value.1| < |s|
  {
    var a :- ReadAmount(s);
    var (word, rest) := ReadWord(a.rest);
    Ok((Applied(i, sign * a.number, sign * a.fraction, word), rest))
  }

  /** The amounts in `s`, added to `i`; `found` once there was one. */
  function Scan(s: string, i: Interval, found: bool): Result<Interval>
    decreases |s|
  {
    if s == "" then
      if found then Ok(i) else Err(Rejected)
    else if IsBlank(s[0]) then Scan(s[1..], i, found)
    else if IsDigit(s[0]) then
      var (j, rest) :- ReadUnit(s, i, 1);
      Scan(rest, j, true)
    else if s[0] == '-' then
      var (j, rest) :- ReadUnit(s[1..], i, -1);
      Scan(rest, j, true)
    else if IsAgo(s) && PrefixLen(s[3..], IsBlank) == |s| - 3 then Negated(i)
    else Err(Rejected)
  }

  /** Every text that is accepted gives fields that fit. */
  lemma {:induction false} ScanInRange(s: string, i: Interval, found: bool)
    requires InRange(i)
    ensures Scan(s, i, found).Ok? ==> InRange(Scan(s, i, found).value)
    decreases |s|
  {
    hide ReadAmount, ReadWord, PartOf;
    if s != "" {
      if IsBlank(s[0]) {
        ScanInRange(s[1..], i, found);
      } else if IsDigit(s[0]) {
        var unit := ReadUnit(s, i, 1);
        if unit.Ok? {
          ScanInRange(unit.value.1, unit.value.0, true);
        }
      } else if s[0] == '-' {
        var unit := ReadUnit(s[1..], i, -1);
        if unit.Ok? {
          ScanInRange(unit.value.1, unit.value.0, true);
        }
      }
    }
  }

  function FromText(s: string): Result<Interval> {
    if s == "" || s[0] == 'P' || s[0] == 'p' then Err(Rejected)
    else Scan(if s[0] == '@' then s[1..] else s, Interval(0, 0, 0), false)
  }
}
