/** Numbers written out digit by digit, as the formatted output engine does. */
module NumberWriter {
  import opened Numerals
  import opened Printf
  import opened PrintfLaws

  const NUL := 0 as char

  function Backwards(s: string): string { seq(|s|, k requires 0 <= k < |s| => s[|s| - 1 - k]) }

  lemma BackwardsMore(s: string, ch: char)
    ensures Backwards(s + [ch]) == [ch] + Backwards(s)
  {
  }

  lemma {:induction false} DigitsShort(n: nat, base: nat, upper: bool, bits: nat, bound: nat)
    requires 2 <= base <= 16 && n < bound && bound == Power(bits)
    ensures |SomeDigits(n, base, upper)| <= bits
    decreases bits
  {
    if n > 0 {
      Halved(n, base, bits);
      DigitsUnfold(n, base, upper);
      DigitsShort(Quotient(n, base), base, upper, bits - 1, Power(bits - 1));
    }
  }

  function Power(bits: nat): (p: nat)
    ensures p > 0
  {
    if bits == 0 then 1 else 2 * Power(bits - 1)
  }

  lemma Halved(n: nat, base: nat, bits: nat)
    requires base >= 2 && 0 < n < Power(bits)
    ensures bits > 0 && Quotient(n, base) < Power(bits - 1)
  {
    var q := Quotient(n, base);
    DivMod(n, base);
    Scale(2, base, q);
    assert 2 * q <= q * base <= n;
  }

  lemma WordPower()
    ensures Power(64) == LIMIT
  {
    assert Power(8) == 0x100;
    assert Power(16) == 0x1_0000;
    assert Power(24) == 0x100_0000;
    assert Power(32) == 0x1_0000_0000;
    assert Power(40) == 0x100_0000_0000;
    assert Power(48) == 0x1_0000_0000_0000;
    assert Power(56) == 0x100_0000_0000_0000;
  }

  /** The digits of a number are those of the rest, and those taken before. */
  ghost predicate DigitsLeft(value: nat, rest: nat, base: nat, upper: bool, taken: string)
    requires 2 <= base <= 16
  {
    && SomeDigits(value, base, upper) == SomeDigits(rest, base, upper) + Backwards(taken)
    && |SomeDigits(rest, base, upper)| + |taken| == |SomeDigits(value, base, upper)| <= 64
  }

  lemma AllLeft(value: Word, base: nat, upper: bool)
    requires 2 <= base <= 16
    ensures DigitsLeft(value, value, base, upper, "")
  {
    WordPower();
    DigitsShort(value, base, upper, 64, LIMIT);
    assert Backwards("") == "";
    hide SomeDigits, Power;
  }

  lemma LessLeft(value: nat, rest: nat, base: nat, upper: bool, taken: string)
    requires 2 <= base <= 16 && DigitsLeft(value, rest, base, upper, taken) && rest > 0
    ensures |taken| < 64
    ensures DigitsLeft(value, Quotient(rest, base), base, upper, taken + [DigitChar(LastDigit(rest, base), upper)])
  {
    DigitsUnfold(rest, base, upper);
    hide SomeDigits, Quotient, LastDigit, DigitChar;
    var ch := DigitChar(LastDigit(rest, base), upper);
    BackwardsMore(taken, ch);
    hide Backwards;
    Joined(SomeDigits(Quotient(rest, base), base, upper), [ch], Backwards(taken));
  }

  lemma NoneLeft(value: nat, rest: nat, base: nat, upper: bool, taken: string)
    requires 2 <= base <= 16 && DigitsLeft(value, rest, base, upper, taken)
    ensures rest == 0 ==> Backwards(taken) == SomeDigits(value, base, upper)
    ensures |taken| == 64 ==> rest == 0
  {
    if rest == 0 { assert SomeDigits(rest, base, upper) == ""; }
    hide Backwards;
  }

  /** The digits of a number, last first. */
  method TakeDigits(value: Word, base: nat, upper: bool, tmp: array<char>) returns (pos: nat)
    requires 2 <= base <= 16 && tmp.Length == 64
    modifies tmp
    ensures pos <= 64 && Backwards(tmp[..pos]) == SomeDigits(value, base, upper)
  {
    hide DigitsLeft, SomeDigits, Backwards, Quotient, LastDigit, DigitChar;
    var rest: nat := value;
    pos := 0;
    AllLeft(value, base, upper);
    assert tmp[..0] == "";
    while rest != 0 && pos < 64
      invariant pos <= 64 && DigitsLeft(value, rest, base, upper, tmp[..pos])
      decreases rest
    {
      LessLeft(value, rest, base, upper, tmp[..pos]);
      tmp[pos] := DigitChar(LastDigit(rest, base), upper);
      assert tmp[..pos + 1] == tmp[..pos] + [tmp[pos]];
      pos := pos + 1;
      rest := Quotient(rest, base);
    }
    NoneLeft(value, rest, base, upper, tmp[..pos]);
  }

  method CopyBack(tmp: array<char>, pos: nat, out: array<char>, offset: nat)
    requires pos <= tmp.Length && offset + pos <= out.Length && tmp != out
    modifies out
    ensures out[offset..offset + pos] == Backwards(tmp[..pos]) && out[..offset] == old(out[..offset])
  {
    var left, i := pos, offset;
    while left > 0
      invariant 0 <= left <= pos && i == offset + (pos - left)
      invariant forall k | offset <= k < i :: out[k] == tmp[pos - 1 - (k - offset)]
      invariant out[..offset] == old(out[..offset])
    {
      left := left - 1;
      out[i] := tmp[left];
      i := i + 1;
    }
    ghost var now, back := out[offset..offset + pos], Backwards(tmp[..pos]);
    forall k | 0 <= k < pos
      ensures now[k] == back[k]
    {
      assert now[k] == out[offset + k];
    }
  }

  /** A number written to out[offset..], with a terminator; zero if it does not fit there. */
  method U64ToBase(value: Word, base: nat, upper: bool, out: array<char>, offset: nat) returns (len: nat)
    requires offset <= out.Length
    modifies out
    ensures base < 2 || base > 16 ==> len == 0
    ensures 2 <= base <= 16 ==>
              var digits := Digits(value, base, upper);
              if offset + |digits| < out.Length
              then len == |digits| && out[offset..offset + len] == digits && out[offset + len] == NUL
              else len == 0
    ensures out[..offset] == old(out[..offset])
  {
    if out.Length - offset < 2 || base < 2 || base > 16 {
      return 0;
    }
    if value == 0 {
      out[offset], out[offset + 1] := '0', NUL;
      return 1;
    }
    var tmp := new char[64];
    hide SomeDigits, Backwards;
    var pos := TakeDigits(value, base, upper, tmp);
    ghost var digits := SomeDigits(value, base, upper);
    BackwardsLength(tmp[..pos]);
    if offset + pos + 1 > out.Length {
      return 0;
    }
    CopyBack(tmp, pos, out, offset);
    len := pos;
    out[offset + len] := NUL;
    assert out[offset..offset + len] == digits;
  }

  lemma BackwardsLength(s: string)
    ensures |Backwards(s)| == |s|
  {
  }

  function SignedDigits(value: int): (s: string)
  {
    if value < 0 then "-" + Digits(-value, 10, false) else Digits(value, 10, false)
  }

  method I64ToDec(value: int, out: array<char>) returns (len: nat)
    requires -(LIMIT / 2) <= value < LIMIT / 2
    modifies out
    ensures var text := SignedDigits(value);
            if |text| < out.Length then len == |text| && out[..len] == text else len == 0
  {
    if out.Length < 2 {
      return 0;
    }
    var offset := 0;
    var magnitude: nat := if value < 0 then -(value + 1) + 1 else value;
    if value < 0 {
      out[0] := '-';
      offset := 1;
      if offset + 2 > out.Length {
        return 0;
      }
    }
    len := U64ToBase(magnitude, 10, false, out, offset);
    if len == 0 {
      return 0;
    }
    if value < 0 {
      assert out[..1 + len] == [out[0]] + out[1..1 + len];
    }
    len := offset + len;
  }
}
