/** Reading and printing unsigned numbers: the C library's strtoul and the %llu conversion. */
module Numerals {
  const LIMIT: nat := 0x1_0000_0000_0000_0000  // unsigned long has 64 bits

  predicate IsSpace(ch: char) { ch == ' ' || '\t' <= ch <= '\r' }

  /** The value of a digit in the largest base, or -1. */
  function DigitValue(ch: char): (v: int)
    ensures -1 <= v < 36
  {
    if '0' <= ch <= '9' then ch as int - '0' as int
    else if 'a' <= ch <= 'z' then 10 + (ch as int - 'a' as int)
    else if 'A' <= ch <= 'Z' then 10 + (ch as int - 'A' as int)
    else -1
  }

  predicate IsDigit(ch: char, base: nat) { 0 <= DigitValue(ch) < base }

  predicate AllDigits(s: string, base: nat) { forall i | 0 <= i < |s| :: IsDigit(s[i], base) }

  /** The number that digits spell. */
  function Value(digits: string, base: nat): nat
    requires AllDigits(digits, base)
  {
    if digits == "" then 0
    else Value(digits[..|digits| - 1], base) * base + DigitValue(digits[|digits| - 1])
  }

  /** What a scan reads: the number, and how much of the text it consumed (nothing, if no digits). */
  datatype Scan = Scan(value: nat, end: nat)

  // ----------------------------------------------------------- what a scan means

  /** text[..i] is white space, and no more follows. */
  predicate SkipsTo(text: string, i: nat) {
    && i <= |text| && (forall k | 0 <= k < i :: IsSpace(text[k]))
    && (i < |text| ==> !IsSpace(text[i]))
  }

  predicate HasSign(text: string, i: nat) { i < |text| && (text[i] == '+' || text[i] == '-') }

  predicate IsNegative(text: string, i: nat) { i < |text| && text[i] == '-' }

  /** Two characters of a hexadecimal prefix at i. */
  predicate HasPrefix(text: string, i: nat) {
    i + 1 < |text| && text[i] == '0' && (text[i + 1] == 'x' || text[i + 1] == 'X')
  }

  /** Base zero is settled by a prefix, which counts only before a hexadecimal digit. */
  function BaseAt(text: string, i: nat, base: nat): nat {
    if base != 0 then base
    else if i < |text| && text[i] == '0' then
      (if HasPrefix(text, i) && i + 2 < |text| && IsDigit(text[i + 2], 16) then 16 else 8)
    else 10
  }

  function DigitsAt(text: string, i: nat, base: nat): nat {
    if BaseAt(text, i, base) == 16 && HasPrefix(text, i) then i + 2 else i
  }

  /** text[i..j] is the longest run of digits from i. */
  predicate RunsTo(text: string, i: nat, j: nat, base: nat) {
    && i <= j <= |text| && AllDigits(text[i..j], base)
    && (j < |text| ==> !IsDigit(text[j], base))
  }

  function AtMost(v: nat, most: nat): nat { if v <= most then v else most }

  function Saturated(v: nat): nat { AtMost(v, LIMIT - 1) }

  /** The nearest long to a magnitude with its sign. */
  function Clamped(negative: bool, v: nat): int {
    if negative then 0 - AtMost(v, LIMIT / 2) else AtMost(v, LIMIT / 2 - 1)
  }

  function Negated(v: nat): nat
    requires v < LIMIT
  {
    if v == 0 then 0 else LIMIT - v
  }

  /** What scanning a text has to give: the longest numeral after space, saturated, negated modulo 2^64. */
  ghost predicate Scanned(text: string, base: nat, scan: Scan) {
    forall i: nat | SkipsTo(text, i) ::
      var start := if HasSign(text, i) then i + 1 else i;
      var b := BaseAt(text, start, base);
      var first := DigitsAt(text, start, base);
      if b < 2 || b > 36 then scan == Scan(0, 0)
      else forall j: nat | first <= |text| && RunsTo(text, first, j, b) ::
        if j == first then scan == Scan(0, 0)
        else
          var v := Saturated(Value(text[first..j], b));
          scan == Scan(if IsNegative(text, i) then Negated(v) else v, j)
  }

  /** What a signed scan has to give: the same numeral, clamped to a long. */
  ghost predicate ScannedSigned(text: string, base: nat, value: int, end: nat) {
    forall i: nat | SkipsTo(text, i) ::
      var start := if HasSign(text, i) then i + 1 else i;
      var b := BaseAt(text, start, base);
      var first := DigitsAt(text, start, base);
      if b < 2 || b > 36 then value == 0 && end == 0
      else forall j: nat | first <= |text| && RunsTo(text, first, j, b) ::
        if j == first then value == 0 && end == 0
        else value == Clamped(IsNegative(text, i), Value(text[first..j], b)) && end == j
  }

  lemma ValueNext(s: string, base: nat)
    requires s != "" && AllDigits(s, base)
    ensures Value(s, base) == Value(s[..|s| - 1], base) * base + DigitValue(s[|s| - 1])
  {
  }

  method SkipSpace(text: string) returns (i: nat)
    ensures SkipsTo(text, i)
  {
    i := 0;
    while i < |text| && IsSpace(text[i])
      invariant i <= |text| && forall k | 0 <= k < i :: IsSpace(text[k])
    {
      i := i + 1;
    }
  }

  /** value stands for the digits of text[first..end], as far as it may grow. */
  ghost predicate ReadSoFar(text: string, first: nat, end: nat, base: nat, most: nat, value: nat, overflow: bool) {
    && first <= end <= |text| && AllDigits(text[first..end], base)
    && value == AtMost(Value(text[first..end], base), most)
    && (overflow <==> Value(text[first..end], base) > most)
  }

  lemma ReadStart(text: string, first: nat, base: nat, most: nat)
    requires first <= |text|
    ensures ReadSoFar(text, first, first, base, most, 0, false)
  {
  }

  /** The greatest value that takes one more digit without passing a limit. */
  function Room(most: nat, digit: nat, base: nat): nat
    requires digit <= most && base > 0
  {
    (most - digit) / base
  }

  /** What one more digit makes of a value. */
  ghost predicate Took(text: string, first: nat, end: nat, base: nat, most: nat, value: nat, overflow: bool, digit: nat)
    requires digit <= most && base > 0
  {
    if value > Room(most, digit, base) then ReadSoFar(text, first, end, base, most, most, true)
    else !overflow && ReadSoFar(text, first, end, base, most, value * base + digit, overflow)
  }

  lemma ReadNext(text: string, first: nat, end: nat, base: nat, most: nat, value: nat, overflow: bool, digit: nat)
    requires ReadSoFar(text, first, end, base, most, value, overflow) && 2 <= base <= 36 <= most
    requires end < |text| && digit == DigitValue(text[end]) && digit < base
    ensures Took(text, first, end + 1, base, most, value, overflow, digit)
  {
    var before, now := text[first..end], text[first..end + 1];
    assert now[..|now| - 1] == before && now[|now| - 1] == text[end];
    ValueNext(now, base);
    Fits(value, digit, base, most);
    Grows(Value(before, base), base);
    hide Value, Room;
  }

  /** The digit loop: saturating once the next digit would not fit. */
  method ReadDigits(text: string, first: nat, base: nat, most: nat) returns (value: nat, end: nat, overflow: bool)
    requires first <= |text| && 2 <= base <= 36 <= most
    ensures RunsTo(text, first, end, base) && first <= end <= |text| && AllDigits(text[first..end], base)
    ensures value == AtMost(Value(text[first..end], base), most) && (overflow <==> Value(text[first..end], base) > most)
  {
    overflow := false;
    value := 0;
    end := first;
    ReadStart(text, first, base, most);
    hide Room, Value, AtMost;
    while end < |text|
      invariant ReadSoFar(text, first, end, base, most, value, overflow)
    {
      var digit := DigitValue(text[end]);
      if digit < 0 || digit >= base {
        return;
      }
      ReadNext(text, first, end, base, most, value, overflow, digit);
      if value > Room(most, digit, base) {
        overflow := true;
        value := most;
      } else if !overflow {
        value := value * base + digit;
      }
      end := end + 1;
    }
  }

  lemma Scale(a: nat, b: nat, base: nat)
    requires a <= b
    ensures a * base <= b * base
  {
  }

  lemma DivisionBounds(n: nat, base: nat)
    requires base > 0
    ensures n / base * base <= n < n / base * base + base
  {
    assert n == base * (n / base) + n % base;
  }

  lemma Beyond(v: nat, q: nat, n: nat, base: nat)
    requires q * base <= n < q * base + base && base > 0
    ensures v > q <==> v * base > n
  {
    if v > q {
      Scale(q + 1, v, base);
      assert (q + 1) * base == q * base + base;
    } else {
      Scale(v, q, base);
    }
  }

  lemma Fits(v: nat, digit: nat, base: nat, most: nat)
    requires v <= most && 2 <= base <= 36 <= most && digit < base
    ensures v > Room(most, digit, base) <==> v * base + digit > most
    ensures v == most ==> v > Room(most, digit, base)
  {
    var n, q := most - digit, Room(most, digit, base);
    DivisionBounds(n, base);
    Beyond(v, q, n, base);
    Scale(2, base, q);
    hide Room;
    assert 2 * q <= q * base;
  }

  lemma Grows(v: nat, base: nat)
    requires base >= 2
    ensures v * base >= v
  {
  }

  /** The base and the first digit of a numeral that begins at i, its sign behind it. */
  method ReadBase(text: string, i: nat, base: nat) returns (b: nat, p: nat)
    ensures b == BaseAt(text, i, base) && p == DigitsAt(text, i, base)
    ensures i <= |text| ==> p <= |text|
  {
    b, p := base, i;
    if base == 0 {
      if i < |text| && text[i] == '0' {
        if i + 2 < |text| && (text[i + 1] == 'x' || text[i + 1] == 'X') && IsDigit(text[i + 2], 16) {
          b, p := 16, i + 2;
        } else {
          b := 8;
        }
      } else {
        b := 10;
      }
    } else if base == 16 {
      if i + 1 < |text| && text[i] == '0' && (text[i + 1] == 'x' || text[i + 1] == 'X') {
        p := i + 2;
      }
    }
  }

  /** Past the space, sign and prefix of a numeral. */
  method ReadSign(text: string, base: nat) returns (negative: bool, b: nat, p: nat, ghost i: nat)
    ensures SkipsTo(text, i) && i <= |text| && negative == IsNegative(text, i)
    ensures var start := if HasSign(text, i) then i + 1 else i;
            b == BaseAt(text, start, base) && p == DigitsAt(text, start, base) && p <= |text|
  {
    var start := SkipSpace(text);
    i := start;
    negative := false;
    hide SkipsTo, BaseAt, DigitsAt;
    assert i <= |text| by { SkipsWithin(text, i); }
    if start < |text| && (text[start] == '+' || text[start] == '-') {
      negative := text[start] == '-';
      start := start + 1;
    }
    b, p := ReadBase(text, start, base);
  }

  lemma SkipsWithin(text: string, i: nat)
    requires SkipsTo(text, i)
    ensures i <= |text|
  {
  }

  /** Where the numeral of a text lies; there is only one answer. */
  ghost predicate Located(text: string, base: nat, i: nat, b: nat, first: nat, j: nat) {
    && SkipsTo(text, i) && i <= |text| && 2 <= b <= 36
    && var start := if HasSign(text, i) then i + 1 else i;
       b == BaseAt(text, start, base) && first == DigitsAt(text, start, base) && first <= |text| && RunsTo(text, first, j, b)
  }

  lemma LocatedScan(text: string, base: nat, i: nat, b: nat, first: nat, j: nat)
    requires Located(text, base, i, b, first, j)
    ensures var v := Saturated(Value(text[first..j], b));
            Scanned(text, base, if j == first then Scan(0, 0) else Scan(if IsNegative(text, i) then Negated(v) else v, j))
  {
    SkipUnique(text, i);
    RunUnique(text, first, j, b);
    hide SkipsTo, RunsTo, Value, AllDigits, HasSign, IsNegative, BaseAt, DigitsAt, Negated;
  }

  lemma LocatedScanSigned(text: string, base: nat, i: nat, b: nat, first: nat, j: nat)
    requires Located(text, base, i, b, first, j)
    ensures if j == first then ScannedSigned(text, base, 0, 0)
            else ScannedSigned(text, base, Clamped(IsNegative(text, i), Value(text[first..j], b)), j)
  {
    SkipUnique(text, i);
    RunUnique(text, first, j, b);
    hide SkipsTo, RunsTo, Value, AllDigits, HasSign, IsNegative, BaseAt, DigitsAt, Clamped;
  }

  lemma BadBase(text: string, base: nat, i: nat)
    requires SkipsTo(text, i)
    requires var b := BaseAt(text, if HasSign(text, i) then i + 1 else i, base); b < 2 || b > 36
    ensures Scanned(text, base, Scan(0, 0)) && ScannedSigned(text, base, 0, 0)
  {
    SkipUnique(text, i);
    hide SkipsTo, RunsTo, HasSign, BaseAt, DigitsAt;
  }

  method Strtoul(text: string, base: nat) returns (scan: Scan)
    ensures Scanned(text, base, scan)
  {
    hide SkipsTo, RunsTo, BaseAt, DigitsAt, HasSign, IsNegative, Value, AllDigits, Scanned;
    var negative, b, p, i := ReadSign(text, base);
    if b < 2 || b > 36 {
      BadBase(text, base, i);
      return Scan(0, 0);
    }
    var value, end, overflow := ReadDigits(text, p, b, LIMIT - 1);
    LocatedScan(text, base, i, b, p, end);
    if end == p {
      return Scan(0, 0);
    }
    if negative {
      value := if value == 0 then 0 else LIMIT - value;
    }
    return Scan(value, end);
  }

  method Strtol(text: string, base: nat) returns (value: int, end: nat)
    ensures ScannedSigned(text, base, value, end)
  {
    hide SkipsTo, RunsTo, BaseAt, DigitsAt, HasSign, IsNegative, Value, AllDigits, ScannedSigned;
    var negative, b, p, i := ReadSign(text, base);
    if b < 2 || b > 36 {
      BadBase(text, base, i);
      return 0, 0;
    }
    var most := if negative then LIMIT / 2 else LIMIT / 2 - 1;
    var magnitude, stop, overflow := ReadDigits(text, p, b, most);
    LocatedScanSigned(text, base, i, b, p, stop);
    if stop == p {
      return 0, 0;
    }
    ClampedIs(negative, Value(text[p..stop], b), magnitude, overflow);
    hide Clamped, AtMost;
    if overflow {
      value := if negative then -(LIMIT / 2) else LIMIT / 2 - 1;
    } else {
      value := magnitude;
      if negative {
        value := -value;
      }
    }
    return value, stop;
  }

  lemma ClampedIs(negative: bool, v: nat, magnitude: nat, overflow: bool)
    requires var most := if negative then LIMIT / 2 else LIMIT / 2 - 1;
             magnitude == AtMost(v, most) && (overflow <==> v > most)
    ensures Clamped(negative, v) == if overflow then (if negative then -(LIMIT / 2) else LIMIT / 2 - 1)
                                    else if negative then 0 - magnitude else magnitude
  {
  }

  lemma SkipUnique(text: string, i: nat)
    requires SkipsTo(text, i)
    ensures forall k: nat | SkipsTo(text, k) :: k == i
  {
  }

  lemma RunUnique(text: string, first: nat, end: nat, base: nat)
    requires first <= |text| && RunsTo(text, first, end, base)
    ensures forall j: nat | RunsTo(text, first, j, base) :: j == end
  {
    forall j: nat | RunsTo(text, first, j, base)
      ensures j == end
    {
      if j < end {
        DigitInside(text, first, end, j, base);
      } else if end < j {
        DigitInside(text, first, j, end, base);
      }
    }
  }

  lemma DigitInside(text: string, first: nat, end: nat, j: nat, base: nat)
    requires first <= j < end <= |text| && AllDigits(text[first..end], base)
    ensures IsDigit(text[j], base)
  {
    assert text[first..end][j - first] == text[j];
  }

  // ------------------------------------------------------------------- base ten

  function SpaceLength(text: string): (i: nat)
    ensures SkipsTo(text, i)
  {
    if text != "" && IsSpace(text[0]) then 1 + SpaceLength(text[1..]) else 0
  }

  function RunEnd(text: string, i: nat): (j: nat)
    requires i <= |text|
    ensures RunsTo(text, i, j, 10)
    decreases |text| - i
  {
    if i < |text| && IsDigit(text[i], 10) then
      var j := RunEnd(text, i + 1);
      assert text[i..j] == [text[i]] + text[i + 1..j];
      j
    else i
  }

  /** Scanning in base ten, as a function. */
  function Decoded(text: string): (scan: Scan)
    ensures scan.end <= |text|
  {
    var i := SpaceLength(text);
    var first := if HasSign(text, i) then i + 1 else i;
    var j := RunEnd(text, first);
    if j == first then Scan(0, 0)
    else
      var v := Saturated(Value(text[first..j], 10));
      Scan(if IsNegative(text, i) then Negated(v) else v, j)
  }

  lemma DecodedIsScan(text: string, scan: Scan)
    ensures Scanned(text, 10, scan) <==> scan == Decoded(text)
  {
    var i := SpaceLength(text);
    var first := if HasSign(text, i) then i + 1 else i;
    var j := RunEnd(text, first);
    SkipUnique(text, i);
    RunUnique(text, first, j, 10);
    assert BaseAt(text, first, 10) == 10 && DigitsAt(text, first, 10) == first;
    assert SkipsTo(text, i) && RunsTo(text, first, j, 10);
    hide SkipsTo, RunsTo, Value;
  }

  /** What %llu prints. */
  function Decimal(n: nat): (s: string)
    ensures s != "" && AllDigits(s, 10)
  {
    if n < 10 then ['0' + n as char] else Decimal(n / 10) + ['0' + (n % 10) as char]
  }

  lemma {:induction false} DecimalValue(n: nat)
    ensures Value(Decimal(n), 10) == n
  {
    var s := Decimal(n);
    ValueNext(s, 10);
    if n >= 10 {
      DecimalValue(n / 10);
      assert s[..|s| - 1] == Decimal(n / 10);
    } else {
      assert s[..0] == "";
    }
  }

  /** Main result: a number below 2^64 that is printed and scanned again is read in full and unchanged. */
  lemma ScanDecimal(n: nat)
    requires n < LIMIT
    ensures Decoded(Decimal(n)) == Scan(n, |Decimal(n)|)
  {
    var s := Decimal(n);
    DecimalValue(n);
    assert !IsSpace(s[0]) && !HasSign(s, 0);
    assert s[0..|s|] == s;
    assert RunsTo(s, 0, |s|, 10);
    RunUnique(s, 0, |s|, 10);
    hide Value, Decimal;
  }
}
