/** Reading an interval with a position over the text, as `Interval::from_cstring` does
(`sql/src/value/interval.rs`), and the fields of an Arrow interval
(`sql/src/value/arrow_decoder.rs`). */
module IntervalScanner {
  import opened Results
  import opened Digits
  import opened Cursors
  import opened Intervals
  import Decimals
  import IntervalRoundTrip

  lemma DropDrop(s: string, a: nat, b: nat)
    requires a + b <= |s|
    ensures s[a..][b..] == s[a + b..]
  {
  }

  /** The accumulating loop: a checked product and an unchecked sum. */
  method ParseDigits(bytes: string) returns (r: Result<nat>, pos: nat)
    ensures r == Accumulated(SplitDigits(bytes).0)
    ensures r.Ok? ==> pos <= |bytes| && bytes[pos..] == SplitDigits(bytes).1
  {
    hide Accumulated;
    var number: nat := 0;
    pos := 0;
    ghost var n := PrefixLen(bytes, IsDigit);
    PrefixLenAll(bytes, IsDigit);
    NoDigits(bytes[..0]);
    while pos < |bytes| && IsDigit(bytes[pos])
      invariant pos <= n
      invariant Accumulated(bytes[..pos]) == Ok(number)
    {
      DigitAdded(bytes, n, pos, number);
      if 10 * number > I64_MAX {
        return Err(Rejected), pos;
      }
      if 10 * number + DigitOf(bytes[pos]) > I64_MAX {
        return Err(Panicked), pos;
      }
      number := 10 * number + DigitOf(bytes[pos]);
      pos := pos + 1;
    }
    r := Ok(number);
  }

  lemma NoDigits(digits: string)
    requires digits == ""
    ensures Accumulated(digits) == Ok(0)
  {
  }

  /** One turn of the accumulating loop; `n` is where the digits end. */
  lemma {:induction false} DigitAdded(bytes: string, n: nat, pos: nat, number: nat)
    requires pos < n <= |bytes| && IsDigit(bytes[pos]) && Accumulated(bytes[..pos]) == Ok(number)
    ensures 10 * number > I64_MAX ==> Accumulated(bytes[..n]) == Err(Rejected)
    ensures 10 * number <= I64_MAX < 10 * number + DigitOf(bytes[pos]) ==> Accumulated(bytes[..n]) == Err(Panicked)
    ensures 10 * number + DigitOf(bytes[pos]) <= I64_MAX ==>
              Accumulated(bytes[..pos + 1]) == Ok(10 * number + DigitOf(bytes[pos]))
  {
    var next := bytes[..pos + 1];
    assert next[..|next| - 1] == bytes[..pos];
    if Accumulated(next).Err? {
      assert bytes[..n][..pos + 1] == next;
      FailureSpreads(bytes[..n], pos + 1);
    }
  }

  /** Once it overflows, a number stays too large. */
  lemma {:induction false} FailureSpreads(digits: string, k: nat)
    requires k <= |digits| && Accumulated(digits[..k]).Err?
    ensures Accumulated(digits) == Accumulated(digits[..k])
    decreases |digits|
  {
    if k < |digits| {
      assert digits[..|digits| - 1][..k] == digits[..k];
      FailureSpreads(digits[..|digits| - 1], k);
    } else {
      assert digits[..k] == digits;
    }
  }

  /** The loop over the digits behind the point, each worth a tenth of the last. */
  method ParseFraction(bytes: string) returns (fraction: nat, pos: nat)
    ensures pos <= |bytes| && SplitFraction(bytes) == (fraction, bytes[pos..])
  {
    hide SplitFraction, SplitDigits, PrefixLen, FractionMicros, Pow10;
    fraction, pos := 0, 0;
    FractionAt(bytes);
    if pos < |bytes| && bytes[pos] == '.' {
      pos := pos + 1;
      ghost var digits := bytes[1..];
      ghost var n := PrefixLen(digits, IsDigit);
      PrefixLenAll(digits, IsDigit);
      var mult := 100000;
      PowersOfTen();
      FractionNone(digits);
      while pos < |bytes| && IsDigit(bytes[pos])
        invariant 1 <= pos <= |bytes| && pos - 1 <= n
        invariant fraction == FractionMicros(digits[..pos - 1])
        invariant mult == if pos <= 6 then Pow10(6 - pos) else 0
      {
        FractionGrows(digits, pos);
        if mult > 0 {
          fraction := fraction + DigitOf(bytes[pos]) * mult;
        }
        mult := mult / 10;
        pos := pos + 1;
      }
      assert pos - 1 == n;
    } else {
      assert bytes[0..] == bytes;
    }
  }

  lemma FractionNone(digits: string)
    ensures FractionMicros(digits[..0]) == 0
  {
  }

  lemma FractionGrows(digits: string, k: nat)
    requires 0 < k <= |digits| && IsDigit(digits[k - 1])
    ensures FractionMicros(digits[..k]) ==
            FractionMicros(digits[..k - 1]) + if k <= 6 then DigitOf(digits[k - 1]) * Pow10(6 - k) else 0
  {
    assert digits[..k][..k - 1] == digits[..k - 1];
  }

  lemma FractionAt(s: string)
    ensures s == "" || s[0] != '.' ==> SplitFraction(s) == (0, s)
    ensures s != "" && s[0] == '.' ==>
              var n := PrefixLen(s[1..], IsDigit);
              SplitFraction(s) == (FractionMicros(s[1..][..n]), s[n + 1..])
  {
    if s != "" && s[0] == '.' {
      var n := PrefixLen(s[1..], IsDigit);
      assert s[1..][n..] == s[n + 1..];
    }
  }

  lemma PowersOfTen()
    ensures Pow10(5) == 100000
    ensures forall k: nat :: k > 0 ==> Pow10(k) / 10 == Pow10(k - 1)
    ensures Pow10(0) == 1
  {
    assert Pow10(2) == 100;
    assert Pow10(3) == 1000;
    Pow10Add(2, 3);
  }

  /** An amount, and how many bytes it takes. */
  function Located(r: Result<(int, int, nat)>, bytes: string): Result<Amount>
    requires r.Ok? ==> r.value.2 <= |bytes|
  {
    match r
    case Ok(a) => Ok(Amount(a.0, a.1, bytes[a.2..]))
    case Err(e) => Err(e)
  }

  method ParseNumber(bytes: string) returns (r: Result<(int, int, nat)>)
    ensures r.Ok? ==> r.value.2 <= |bytes|
    ensures Located(r, bytes) == ReadAmount(bytes)
  {
    hide Accumulated, SplitDigits, SplitFraction, ReadTime, ReadAmount;
    ReadAmountUnfold(bytes);
    var number, pos := ParseDigits(bytes);
    if number.Err? {
      return Err(number.error);
    }
    var fraction, next := ParseFraction(bytes[pos..]);
    DropDrop(bytes, pos, next);
    pos := pos + next;
    if pos < |bytes| && bytes[pos] == ':' {
      var time := ParseTime(number.value, bytes[pos..]);
      match time
      case Err(e) => return Err(e);
      case Ok(t) =>
        DropDrop(bytes, pos, t.1);
        return Ok((t.0, 0, pos + t.1));
    }
    if pos == 0 {
      return Err(Rejected);
    }
    r := Ok((number.value, fraction, pos));
  }

  lemma ReadAmountUnfold(s: string)
    ensures ReadAmount(s) ==
            match Accumulated(SplitDigits(s).0)
            case Err(e) => Err(e)
            case Ok(number) =>
              var tail := SplitFraction(SplitDigits(s).1);
              if tail.1 != "" && tail.1[0] == ':' then ReadTime(number, tail.1)
              else if |tail.1| == |s| then Err(Rejected)
              else Ok(Amount(number, tail.0, tail.1))
  {
    hide Accumulated, SplitDigits, SplitFraction, ReadTime;
  }

  /** The total of a time of day in microseconds, and how many bytes it takes. */
  method ParseTime(hours: nat, bytes: string) returns (r: Result<(int, nat)>)
    requires bytes != "" && bytes[0] == ':'
    ensures r.Ok? ==> r.value.1 <= |bytes| && ReadTime(hours, bytes) == Ok(Amount(r.value.0, 0, bytes[r.value.1..]))
    ensures r.Err? ==> ReadTime(hours, bytes) == Err(r.error)
  {
    hide ReadColons, ReadSeconds;
    var start := Checked(hours * MICROS_PER_HOUR);
    if start.Err? {
      return Err(Panicked);
    }
    var colons := ParseColons(bytes, start.value);
    if colons.Err? {
      return Err(colons.error);
    }
    var (total, timePos) := colons.value;
    if timePos < |bytes| {
      var tail := ParseSeconds(total, bytes[timePos..]);
      match tail
      case Err(e) => return Err(e);
      case Ok(t) =>
        DropDrop(bytes, timePos, t.1);
        return Ok((t.0, timePos + t.1));
    }
    r := Ok((total, timePos));
  }

  /** The loop over the parts between at most two colons. */
  method ParseColons(bytes: string, start: nat) returns (r: Result<(nat, nat)>)
    ensures r.Ok? ==> r.value.1 <= |bytes| && ReadColons(bytes, 0, start) == Ok((r.value.0, bytes[r.value.1..]))
    ensures r.Err? ==> ReadColons(bytes, 0, start) == Err(r.error)
  {
    hide Accumulated, SplitDigits;
    var total: nat, timePos: nat, colonCount: nat := start, 0, 0;
    while colonCount < 2 && timePos < |bytes|
      invariant colonCount <= 2 && timePos <= |bytes|
      invariant ReadColons(bytes[timePos..], colonCount, total) == ReadColons(bytes, 0, start)
      decreases 2 - colonCount
    {
      ghost var left := bytes[timePos..];
      var minute, next := ParseDigits(bytes[timePos..]);
      if minute.Err? {
        return Err(minute.error);
      }
      assert left[next..] == bytes[timePos + next..];
      if minute.value * MICROS_PER_MINUTE > I64_MAX || total + minute.value * MICROS_PER_MINUTE > I64_MAX {
        return Err(Panicked);
      }
      total := total + minute.value * MICROS_PER_MINUTE;
      timePos := timePos + next;
      if timePos < |bytes| && bytes[timePos] == ':' {
        DropDrop(bytes, timePos, 1);
        timePos := timePos + 1;
        colonCount := colonCount + 1;
      } else {
        return Ok((total, timePos));
      }
    }
    r := Ok((total, timePos));
  }

  method ParseSeconds(total: nat, bytes: string) returns (r: Result<(int, nat)>)
    ensures r.Ok? ==> r.value.1 <= |bytes| && ReadSeconds(total, bytes) == Ok(Amount(r.value.0, 0, bytes[r.value.1..]))
    ensures r.Err? ==> ReadSeconds(total, bytes) == Err(r.error)
  {
    hide Accumulated, SplitDigits, SplitFraction, ReadSeconds, SecondsSum;
    ReadSecondsUnfold(total, bytes);
    var seconds, pos := ParseDigits(bytes);
    if seconds.Err? {
      return Err(seconds.error);
    }
    var fraction, next := ParseFraction(bytes[pos..]);
    DropDrop(bytes, pos, next);
    var sum := SecondsSum(total, seconds.value, fraction);
    if sum.Err? {
      return Err(sum.error);
    }
    r := Ok((sum.value, pos + next));
  }

  lemma ReadSecondsUnfold(total: nat, s: string)
    ensures ReadSeconds(total, s) ==
            match Accumulated(SplitDigits(s).0)
            case Err(e) => Err(e)
            case Ok(seconds) =>
              var tail := SplitFraction(SplitDigits(s).1);
              match SecondsSum(total, seconds, tail.0)
              case Err(e) => Err(e)
              case Ok(sum) => Ok(Amount(sum, 0, tail.1))
  {
    hide Accumulated, SplitDigits, SplitFraction;
  }

  /** The total with seconds and a fraction added, where each step must fit an `i64`. */
  function SecondsSum(total: nat, seconds: nat, fraction: nat): Result<int> {
    var whole :- Checked(seconds * MICROS_PER_SEC);
    var micros :- Checked(whole + fraction);
    Checked(total + micros)
  }

  method ParseIdentifier(s: string) returns (word: string, pos: nat)
    ensures pos <= |s| && ReadWord(s) == (word, s[pos..])
  {
    pos := 0;
    while pos < |s| && IsBlank(s[pos])
      invariant pos <= |s| && forall k :: 0 <= k < pos ==> IsBlank(s[k])
    {
      pos := pos + 1;
    }
    PrefixLenIs(s, IsBlank, pos);
    ghost var tail := s[pos..];
    var startPos := pos;
    while pos < |s| && IsAlpha(s[pos])
      invariant startPos <= pos <= |s| && forall k :: startPos <= k < pos ==> IsAlpha(s[k])
    {
      pos := pos + 1;
    }
    PrefixLenIs(tail, IsAlpha, pos - startPos);
    assert tail[..pos - startPos] == s[startPos..pos];
    assert tail[pos - startPos..] == s[pos..];
    word := if pos == startPos then "" else s[startPos..pos];
  }

  /** Reads one amount with its unit at `start`. */
  method ParseUnit(s: string, start: nat, i: Interval, sign: int) returns (r: Result<(Interval, nat)>)
    requires start <= |s|
    ensures r.Ok? ==> start < r.value.1 <= |s| && ReadUnit(s[start..], i, sign) == Ok((r.value.0, s[r.value.1..]))
    ensures r.Err? ==> ReadUnit(s[start..], i, sign) == Err(r.error)
  {
    hide Applied, ReadWord, ReadAmount;
    var amount := ParseNumber(s[start..]);
    if amount.Err? {
      return Err(amount.error);
    }
    var (number, fraction, next) := amount.value;
    DropDrop(s, start, next);
    var pos := start + next;
    var word, skipped := ParseIdentifier(s[pos..]);
    DropDrop(s, pos, skipped);
    r := Ok((Applied(i, sign * number, sign * fraction, word), pos + skipped));
  }

  method FromCstring(s: string) returns (r: Result<Interval>)
    ensures r == FromText(s)
  {
    hide ReadUnit;
    var result := Interval(0, 0, 0);
    var pos := 0;
    var foundAny := false;
    if |s| == 0 {
      return Err(Rejected);
    }
    if s[pos] == '@' {
      pos := pos + 1;
    } else if s[pos] == 'P' || s[pos] == 'p' {
      return Err(Rejected);
    }
    assert s[0..] == s;
    while pos < |s|
      invariant pos <= |s|
      invariant Scan(s[pos..], result, foundAny) == FromText(s)
    {
      if IsBlank(s[pos]) {
        DropDrop(s, pos, 1);
        pos := pos + 1;
      } else if IsDigit(s[pos]) {
        var unit := ParseUnit(s, pos, result, 1);
        if unit.Err? {
          return Err(unit.error);
        }
        result, pos := unit.value.0, unit.value.1;
        foundAny := true;
      } else if s[pos] == '-' {
        DropDrop(s, pos, 1);
        var unit := ParseUnit(s, pos + 1, result, -1);
        if unit.Err? {
          return Err(unit.error);
        }
        result, pos := unit.value.0, unit.value.1;
        foundAny := true;
      } else {
        r := ParseAgo(s[pos..], result);
        return;
      }
    }
    r := if foundAny then Ok(result) else Err(Rejected);
  }

  /** The word `ago` and the blanks behind it, or an unexpected character. */
  method ParseAgo(s: string, i: Interval) returns (r: Result<Interval>)
    requires s != "" && !IsBlank(s[0]) && !IsDigit(s[0]) && s[0] != '-'
    ensures forall found :: r == Scan(s, i, found)
  {
    if !IsAgo(s) {
      return Err(Rejected);
    }
    var pos := 3;
    while pos < |s|
      invariant 3 <= pos <= |s| && forall k :: 3 <= k < pos ==> IsBlank(s[k])
    {
      if !IsBlank(s[pos]) {
        PrefixLenIs(s[3..], IsBlank, pos - 3);
        return Err(Rejected);
      }
      pos := pos + 1;
    }
    PrefixLenIs(s[3..], IsBlank, |s| - 3);
    r := Negated(i);
  }

  // ---------------------------------------------------------------------------
  // Arrow intervals
  // ---------------------------------------------------------------------------

  const TWO_32 := 0x1_0000_0000
  const TWO_64 := TWO_32 * TWO_32
  const TWO_96 := TWO_64 * TWO_32

  /** A 128-bit integer. */
  predicate IsI128(x: int) {
    -(TWO_64 * TWO_64 / 2) <= x < TWO_64 * TWO_64 / 2
  }

  /** The signed integer with the low bits `x` of a word of `size` values. */
  function Signed(x: nat, size: nat): int
    requires size > 0
  {
    if x % size < size / 2 then x % size else x % size - size
  }

  /** Months in the upper 32 bits, days in the next 32, microseconds in the lower 64:
  shifts are divisions that round down, masks are remainders. */
  function Unpacked(x: int): Interval {
    Interval(Signed(x / TWO_96 % TWO_32, TWO_32), Signed(x / TWO_64 % TWO_32, TWO_32), Signed(x % TWO_64, TWO_64))
  }

  function Packed(i: Interval): int {
    i.months * TWO_96 + i.days % TWO_32 * TWO_64 + i.micros % TWO_64
  }

  lemma DivisionIs(a: int, b: int, q: int, r: int)
    requires b > 0 && 0 <= r < b && a == q * b + r
    ensures a / b == q && a % b == r
  {
    var d := q - a / b;
    assert a / b * b + a % b == a;
    assert d * b == a % b - r;
    MultipleGrows(d, b);
  }

  lemma MultipleGrows(d: int, b: int)
    requires b > 0
    ensures d >= 1 ==> d * b >= b
    ensures d <= -1 ==> d * b <= -b
  {
    if d >= 1 {
      Decimals.MulMonotone(1, d, b);
    } else if d <= -1 {
      Decimals.MulMonotone(1, -d, b);
    }
  }

  lemma SignedOfLow(v: int, size: nat)
    requires size > 0 && size % 2 == 0 && -(size / 2) <= v < size / 2
    ensures Signed(v % size, size) == v
  {
    if v < 0 {
      DivisionIs(v, size, -1, v + size);
    } else {
      DivisionIs(v, size, 0, v);
    }
    DivisionIs(v % size, size, 0, v % size);
  }

  lemma LowOfSigned(x: nat, size: nat)
    requires size > 0 && size % 2 == 0 && x < size
    ensures Signed(x, size) % size == x && -(size / 2) <= Signed(x, size) < size / 2
  {
    DivisionIs(x, size, 0, x);
    if x >= size / 2 {
      DivisionIs(x - size, size, -1, x);
    }
  }

  /** The word by its parts. */
  lemma PartsOfWord(x: int, months: int, days: nat, micros: nat)
    requires days < TWO_32 && micros < TWO_64 && x == months * TWO_96 + days * TWO_64 + micros
    ensures x / TWO_96 == months && x / TWO_64 % TWO_32 == days && x % TWO_64 == micros
  {
    var high := months * TWO_32 + days;
    DivisionIs(x, TWO_64, high, micros);
    DivisionIs(high, TWO_32, months, days);
    DivisionIs(x, TWO_96, months, days * TWO_64 + micros);
  }

  /** No bit of the word is lost. */
  lemma PackedUnpacked(x: int)
    requires IsI128(x)
    ensures InRange(Unpacked(x)) && Packed(Unpacked(x)) == x
  {
    var high := x / TWO_64;
    PartsOfWord(x, high / TWO_32, high % TWO_32, x % TWO_64);
    SignedOfLow(x / TWO_96, TWO_32);
    LowOfSigned(high % TWO_32, TWO_32);
    LowOfSigned(x % TWO_64, TWO_64);
  }

  /** Every interval has a word. */
  lemma UnpackedPacked(i: Interval)
    requires InRange(i)
    ensures IsI128(Packed(i)) && Unpacked(Packed(i)) == i
  {
    PartsOfWord(Packed(i), i.months, i.days % TWO_32, i.micros % TWO_64);
    SignedOfLow(i.months, TWO_32);
    SignedOfLow(i.days, TWO_32);
    SignedOfLow(i.micros, TWO_64);
  }

  /** An Arrow interval that is unpacked, printed and read again gives back the word
  it came from, unless its microseconds are `i64::MIN`. */
  lemma ArrowRoundTrip(x: int)
    requires IsI128(x)
    ensures Text(Unpacked(x)).Ok? <==> x % TWO_64 != TWO_64 / 2
    ensures Text(Unpacked(x)).Ok? ==>
              FromText(Text(Unpacked(x)).value).Ok? && Packed(FromText(Text(Unpacked(x)).value).value) == x
  {
    hide Text, FromText;
    PackedUnpacked(x);
    LowOfSigned(x % TWO_64, TWO_64);
    IntervalRoundTrip.IntervalRoundTrip(Unpacked(x));
  }

  /** The low 64 bits of the word are microseconds, the 32 above them days, and the 32 above
  those months, each with its own sign. */
  lemma WordLayout()
    ensures Unpacked(1) == Interval(0, 0, 1)
    ensures Unpacked(0x1_0000_0000_0000_0000) == Interval(0, 1, 0)
    ensures Unpacked(0x1_0000_0000_0000_0000_0000_0000) == Interval(1, 0, 0)
    ensures Unpacked(-1) == Interval(-1, -1, -1)
  {
  }
}
