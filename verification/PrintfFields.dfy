/** What fields and formats look like, said without the functions that make them. */
module PrintfFields {
  import opened Options
  import opened Numerals
  import opened Printf
  import opened PrintfLaws
  import Manifest

  // ------------------------------------------------------------- strings, characters

  /** A text of which some start is shown, with spaces on one side that fill it to its width and no further. */
  predicate Filled(text: string, shown: string, left: bool, width: nat) {
    && |text| == Max(width, |shown|)
    && if left then shown <= text && forall k | |shown| <= k < |text| :: text[k] == ' '
       else text[|text| - |shown|..] == shown && forall k | 0 <= k < |text| - |shown| :: text[k] == ' '
  }

  lemma AlignedFills(text: string, left: bool, width: nat)
    ensures Filled(Aligned(text, left, width), text, left, width)
  {
  }

  /** A string field shows as many first characters of the string as its precision lets it. */
  lemma StringField(spec: Spec, s: string, n: nat)
    requires spec.conv == 's'
    requires n == if spec.precision.Some? && spec.precision.value < |s| then spec.precision.value else |s|
    ensures Filled(FieldText(spec, Text(Some(s))), s[..n], spec.left, spec.width)
    ensures FieldText(spec, Text(None)) == FieldText(spec, Text(Some("(null)")))
  {
    assert s[..|s|] == s;
    AlignedFills(s[..n], spec.left, spec.width);
    hide Filled, Aligned;
  }

  /** A character field shows the low byte of its argument. */
  lemma CharField(spec: Spec, bits: Word)
    requires spec.conv == 'c'
    ensures Filled(FieldText(spec, Number(bits)), [(bits % 256) as char], spec.left, spec.width)
  {
    AlignedFills([(bits % 256) as char], spec.left, spec.width);
    hide Filled, Aligned;
  }

  // ------------------------------------------------------------------- numbers

  /** The number that bits stand for in two's complement, or without a sign. */
  lemma NumberMeans(bits: Word, wide: bool)
    ensures var n := if wide then 0x1_0000_0000_0000_0000 else 0x1_0000_0000;
            && (bits - Signed(bits, wide)) % n == 0 && -n <= 2 * Signed(bits, wide) < n
            && (bits - Unsigned(bits, wide)) % n == 0 && 0 <= Unsigned(bits, wide) < n
  {
  }

  /** What is shown of a number before its digits: a sign, or what marks a pointer. */
  predicate Marks(sign: string, spec: Spec, bits: Word) {
    sign == if spec.conv == 'p' then "0x"
            else if (spec.conv == 'd' || spec.conv == 'i') && Signed(bits, spec.wide) < 0 then "-"
            else ""
  }

  /** How great the number is that a field shows. */
  predicate Shows(m: nat, spec: Spec, bits: Word) {
    if spec.conv == 'd' || spec.conv == 'i' then m == Signed(bits, spec.wide) || m == -Signed(bits, spec.wide)
    else m == if spec.conv == 'p' then bits else Unsigned(bits, spec.wide)
  }

  /** Digits without leading zeros, in the case asked for; none only for a zero of precision zero. */
  predicate Spells(digits: string, spec: Spec, bits: Word) {
    var base := if spec.conv in {'d', 'i', 'u'} then 10 else 16;
    && AllDigits(digits, base) && Shows(Value(digits, base), spec, bits)
    && (digits == "" <==> spec.precision == Some(0) && Shows(0, spec, bits))
    && (|digits| > 1 ==> digits[0] != '0')
    && (forall ch | ch in digits :: if spec.conv == 'X' then !('a' <= ch <= 'z') else !('A' <= ch <= 'Z'))
  }

  /** A width is filled by zeros if that is asked for, unless there is a precision, or the text stands left. */
  predicate Zeroed(spec: Spec) { spec.zero && !spec.left && spec.precision == None && spec.conv != 'p' }

  /**
    Spaces, a sign or mark, zeros, digits, and spaces: spaces on the side asked for and only to fill the
    width, zeros only to fill the precision or, if asked for, the width.
  */
  predicate Laid(text: string, spec: Spec, bits: Word, lead: nat, sign: string, zeros: nat, digits: string, trail: nat) {
    && text == Repeat(' ', lead) + sign + (Repeat('0', zeros) + digits) + Repeat(' ', trail)
    && Marks(sign, spec, bits) && Spells(digits, spec, bits)
    && |text| >= spec.width && (spec.precision.Some? ==> zeros + |digits| >= spec.precision.value)
    && (lead > 0 ==> |text| == spec.width && !spec.left && !Zeroed(spec))
    && (trail > 0 ==> |text| == spec.width && spec.left)
    && (zeros > 0 ==> || (spec.precision.Some? && zeros + |digits| == spec.precision.value)
                      || (Zeroed(spec) && |text| == spec.width))
  }

  lemma {:induction false} NoLeadingZero(n: nat, base: nat, upper: bool)
    requires 2 <= base <= 16 && n > 0
    ensures SomeDigits(n, base, upper) != "" && SomeDigits(n, base, upper)[0] != '0'
    decreases n
  {
    DigitsUnfold(n, base, upper);
    var q, d := Quotient(n, base), LastDigit(n, base);
    if q > 0 {
      NoLeadingZero(q, base, upper);
    } else {
      assert SomeDigits(0, base, upper) == "";
      DivMod(n, base);
      assert d == n;
    }
    hide SomeDigits;
  }

  predicate InCase(s: string, upper: bool) {
    forall ch | ch in s :: if upper then !('a' <= ch <= 'z') else !('A' <= ch <= 'Z')
  }

  lemma {:induction false} DigitsInCase(n: nat, base: nat, upper: bool)
    requires 2 <= base <= 16
    ensures InCase(SomeDigits(n, base, upper), upper)
    decreases n
  {
    if n > 0 {
      DigitsUnfold(n, base, upper);
      DigitsInCase(Quotient(n, base), base, upper);
      hide SomeDigits, Quotient, LastDigit;
    }
  }

  lemma MagnitudeShown(spec: Spec, bits: Word)
    requires IsNumeric(spec.conv)
    ensures Shows(Magnitude(spec, bits), spec, bits)
    ensures Shows(0, spec, bits) <==> Magnitude(spec, bits) == 0
  {
    hide Signed, Unsigned;
  }

  lemma ShownSpells(spec: Spec, bits: Word)
    requires IsNumeric(spec.conv)
    ensures Spells(Shown(spec, bits), spec, bits)
  {
    var m, base, upper := Magnitude(spec, bits), Base(spec.conv), spec.conv == 'X';
    MagnitudeShown(spec, bits);
    ShownValue(spec, bits);
    if m > 0 { NoLeadingZero(m, base, upper); }
    DigitsInCase(m, base, upper);
    assert InCase("0", upper);
    hide Magnitude, Shows, SomeDigits, Value;
  }

  lemma PrefixMarks(spec: Spec, bits: Word)
    requires IsNumeric(spec.conv)
    ensures Marks(Prefix(spec, bits), spec, bits)
  {
    hide Signed;
  }

  /** How many spaces and zeros a number field has, one way or another. */
  function Spaces(spec: Spec, bits: Word): nat {
    Gap(spec.width, |Prefix(spec, bits)| + Leading(spec, |Shown(spec, bits)|) + |Shown(spec, bits)|)
  }

  lemma NumberIs(spec: Spec, bits: Word, lead: nat, zeros: nat, trail: nat)
    requires var n, fill := Spaces(spec, bits), !spec.left && ZeroFills(spec);
             && trail == (if spec.left then n else 0) && lead == (if spec.left || fill then 0 else n)
             && zeros == if fill then n else Leading(spec, |Shown(spec, bits)|)
    ensures NumberText(spec, bits)
            == Repeat(' ', lead) + Prefix(spec, bits) + (Repeat('0', zeros) + Shown(spec, bits)) + Repeat(' ', trail)
  {
    hide Prefix, Shown;
    assert Repeat(' ', 0) == "" && Repeat('0', 0) == "";
  }

  /** Main result: every number field is laid out so, whatever its flags, width and precision. */
  lemma NumberField(spec: Spec, bits: Word) returns (lead: nat, zeros: nat, trail: nat)
    requires IsNumeric(spec.conv)
    ensures Laid(FieldText(spec, Number(bits)), spec, bits, lead, Prefix(spec, bits), zeros, Shown(spec, bits), trail)
  {
    PrefixMarks(spec, bits);
    ShownSpells(spec, bits);
    hide Prefix, Shown, Marks, Spells;
    var n, fill := Spaces(spec, bits), !spec.left && ZeroFills(spec);
    trail := if spec.left then n else 0;
    lead := if spec.left || fill then 0 else n;
    zeros := if fill then n else Leading(spec, |Shown(spec, bits)|);
    NumberIs(spec, bits, lead, zeros, trail);
    hide NumberText;
  }

  // -------------------------------------------------------------- reading fields

  lemma {:induction false} FlagsRead(fmt: string, i: nat, j: nat)
    requires i <= j <= |fmt| && (forall k | i <= k < j :: IsFlag(fmt[k])) && (j < |fmt| ==> !IsFlag(fmt[j]))
    ensures FlagsEnd(fmt, i) == j
    decreases j - i
  {
    if i < j { FlagsRead(fmt, i + 1, j); }
  }

  lemma Wraps(v: nat, d: nat)
    ensures (v % LIMIT * 10 + d) % LIMIT == (v * 10 + d) % LIMIT
  {
  }

  /** One more digit of a stretch of digits. */
  lemma DigitNext(fmt: string, a: nat, i: nat, j: nat)
    requires a <= i < j <= |fmt| && AllDigits(fmt[a..j], 10)
    ensures AllDigits(fmt[a..i], 10) && AllDigits(fmt[a..i + 1], 10) && IsDigit(fmt[i], 10)
    ensures Value(fmt[a..i + 1], 10) == Value(fmt[a..i], 10) * 10 + DigitValue(fmt[i])
  {
    assert forall k | 0 <= k < i + 1 - a :: fmt[a..i + 1][k] == fmt[a..j][k];
    assert forall k | 0 <= k < i - a :: fmt[a..i][k] == fmt[a..j][k];
    assert fmt[a..i + 1][..i - a] == fmt[a..i] && fmt[a..i + 1][i - a] == fmt[i];
    hide DigitValue;
    ValueNext(fmt[a..i + 1], 10);
  }

  /** Widths and precisions are read as decimals, modulo 2^64. */
  lemma {:induction false} SizeRead(fmt: string, a: nat, i: nat, j: nat)
    requires a <= i <= j <= |fmt| && AllDigits(fmt[a..j], 10) && (j < |fmt| ==> !IsDigit(fmt[j], 10))
    requires AllDigits(fmt[a..i], 10)
    ensures SizeFrom(fmt, i, Value(fmt[a..i], 10) % LIMIT) == (Value(fmt[a..j], 10) % LIMIT, j)
    decreases j - i
  {
    hide Value, AllDigits;
    if i < j {
      DigitNext(fmt, a, i, j);
      Wraps(Value(fmt[a..i], 10), DigitValue(fmt[i]));
      SizeRead(fmt, a, i + 1, j);
    }
  }

  lemma SizeReads(fmt: string, a: nat, j: nat)
    requires a <= j <= |fmt| && AllDigits(fmt[a..j], 10) && (j < |fmt| ==> !IsDigit(fmt[j], 10))
    ensures SizeFrom(fmt, a, 0) == (Value(fmt[a..j], 10) % LIMIT, j)
  {
    assert fmt[a..a] == "";
    SizeRead(fmt, a, a, j);
  }

  /** A field of a format, as it is written: behind its percent sign up to its conversion. */
  datatype Written = Written(flags: string, width: string, precision: Option<string>, length: string, conv: char)

  function WrittenText(w: Written): string {
    w.flags + w.width + (if w.precision.Some? then "." + w.precision.value else "") + w.length + [w.conv]
  }

  /** Flags, digits that do not begin with a zero, digits, a length and a conversion that is none of these. */
  predicate WellWritten(w: Written) {
    && (forall ch | ch in w.flags :: ch == '-' || ch == '0')
    && AllDigits(w.width, 10) && (w.width != "" ==> w.width[0] != '0')
    && (w.precision.Some? ==> AllDigits(w.precision.value, 10))
    && w.length in {"", "l", "ll", "z"}
    && w.conv !in {'-', '.', 'l', 'z', '%'} && !IsDigit(w.conv, 10)
  }

  function MeantBy(w: Written): Spec
    requires WellWritten(w)
  {
    Spec('-' in w.flags, '0' in w.flags, Value(w.width, 10) % LIMIT,
         if w.precision.Some? then Some(Value(w.precision.value, 10) % LIMIT) else None, w.length != "", w.conv)
  }

  /** The parts of a field lie one behind the other from place i on. */
  ghost predicate LiesAt(fmt: string, i: nat, w: Written, f: nat, d: nat, p: nat, c: nat) {
    && i <= f <= d <= p <= c < |fmt|
    && fmt[i..f] == w.flags && fmt[f..d] == w.width && fmt[p..c] == w.length && fmt[c] == w.conv
    && match w.precision
       case None => p == d
       case Some(s) => d < p && fmt[d] == '.' && fmt[d + 1..p] == s
  }

  lemma FirstOf(fmt: string, a: nat, b: nat)
    requires a < b <= |fmt|
    ensures fmt[a..b][0] == fmt[a]
  {
  }

  /** What comes behind the flags, and behind the width, begins no more of them. */
  lemma PartsEnd(fmt: string, i: nat, w: Written, f: nat, d: nat, p: nat, c: nat)
    requires LiesAt(fmt, i, w, f, d, p, c) && WellWritten(w)
    ensures !IsFlag(fmt[f]) && !IsDigit(fmt[d], 10) && !IsDigit(fmt[p], 10)
    ensures p == d ==> fmt[d] != '.'
    ensures forall k | i <= k < f :: IsFlag(fmt[k])
  {
    if p < c { FirstOf(fmt, p, c); }
    if f < d { FirstOf(fmt, f, d); }
    forall k | i <= k < f
      ensures IsFlag(fmt[k])
    {
      assert fmt[i..f][k - i] == fmt[k] && fmt[k] in w.flags;
    }
  }

  lemma LengthRead(fmt: string, p: nat, c: nat)
    requires p <= c < |fmt| && fmt[p..c] in {"", "l", "ll", "z"} && fmt[c] != 'l' && (p == c ==> fmt[c] != 'z')
    ensures LengthEnd(fmt, p) == c
  {
    assert forall k | 0 <= k < c - p :: fmt[p + k] == fmt[p..c][k];
  }

  lemma PrecisionRead(fmt: string, i: nat, w: Written, f: nat, d: nat, p: nat, c: nat)
    requires LiesAt(fmt, i, w, f, d, p, c) && WellWritten(w)
    ensures PrecisionFrom(fmt, d) == (MeantBy(w).precision, p)
  {
    PartsEnd(fmt, i, w, f, d, p, c);
    if w.precision.Some? { SizeReads(fmt, d + 1, p); }
    hide SizeFrom;
  }

  lemma PlacesRead(fmt: string, i: nat, w: Written, f: nat, d: nat, p: nat, c: nat)
    requires LiesAt(fmt, i, w, f, d, p, c) && WellWritten(w)
    ensures PlacesAt(fmt, i) == Places(f, d, p, c)
    ensures SizeFrom(fmt, f, 0).0 == MeantBy(w).width
  {
    PartsEnd(fmt, i, w, f, d, p, c);
    FlagsRead(fmt, i, f);
    SizeReads(fmt, f, d);
    PrecisionRead(fmt, i, w, f, d, p, c);
    LengthRead(fmt, p, c);
    hide FlagsEnd, SizeFrom, PrecisionFrom, LengthEnd;
  }

  lemma SpecReads(fmt: string, i: nat, w: Written, f: nat, d: nat, p: nat, c: nat)
    requires LiesAt(fmt, i, w, f, d, p, c) && WellWritten(w)
    ensures SpecAt(fmt, i) == Some((MeantBy(w), c + 1))
  {
    PlacesRead(fmt, i, w, f, d, p, c);
    PrecisionRead(fmt, i, w, f, d, p, c);
    hide PlacesAt, SizeFrom, PrecisionFrom;
  }

  lemma FiveParts(a: string, b: string, c: string, d: string, e: string, fmt: string)
    requires fmt == a + b + c + d + e
    ensures var i, j, k := |a|, |a| + |b|, |a| + |b| + |c|; var l := k + |d|;
            fmt[i..j] == b && fmt[j..k] == c && fmt[k..l] == d && fmt[l..] == e && i <= j <= k <= l <= |fmt|
  {
  }

  /** Where the parts of a field lie. */
  lemma PartsLie(w: Written, rest: string) returns (f: nat, d: nat, p: nat, c: nat)
    ensures LiesAt("%" + WrittenText(w) + rest, 1, w, f, d, p, c) && c == |WrittenText(w)|
  {
    var dot := if w.precision.Some? then "." + w.precision.value else "";
    var fmt := "%" + WrittenText(w) + rest;
    var tail := w.length + [w.conv] + rest;
    f := 1 + |w.flags|;
    d := f + |w.width|;
    p := d + |dot|;
    c := p + |w.length|;
    Regrouped(w, rest, dot, tail);
    TailParts(w, rest, tail);
    hide WrittenText, LiesAt;
    PartsLieIn(fmt, w, dot, tail);
  }

  lemma PartsLieIn(fmt: string, w: Written, dot: string, tail: string)
    requires dot == if w.precision.Some? then "." + w.precision.value else ""
    requires fmt == "%" + w.flags + w.width + dot + tail
    requires |w.length| < |tail| && tail[..|w.length|] == w.length && tail[|w.length|] == w.conv
    ensures var f := 1 + |w.flags|; var d := f + |w.width|; var p := d + |dot|;
            LiesAt(fmt, 1, w, f, d, p, p + |w.length|)
  {
    var f := 1 + |w.flags|;
    var d := f + |w.width|;
    var p := d + |dot|;
    FiveParts("%", w.flags, w.width, dot, tail, fmt);
    DotParts(fmt, w, d, p, dot);
    SameLater(fmt, p, tail, w.length, p + |w.length|);
    hide LiesAt;
    LiesIntro(fmt, 1, w, f, d, p, p + |w.length|);
  }

  lemma LiesIntro(fmt: string, i: nat, w: Written, f: nat, d: nat, p: nat, c: nat)
    requires i <= f <= d <= p <= c < |fmt|
    requires fmt[i..f] == w.flags && fmt[f..d] == w.width && fmt[p..c] == w.length && fmt[c] == w.conv
    requires match w.precision
             case None => p == d
             case Some(s) => d < p && fmt[d] == '.' && fmt[d + 1..p] == s
    ensures LiesAt(fmt, i, w, f, d, p, c)
  {
  }

  lemma Regrouped(w: Written, rest: string, dot: string, tail: string)
    requires dot == (if w.precision.Some? then "." + w.precision.value else "") && tail == w.length + [w.conv] + rest
    ensures "%" + WrittenText(w) + rest == "%" + w.flags + w.width + dot + tail
    ensures |WrittenText(w)| == |w.flags| + |w.width| + |dot| + |w.length| + 1
  {
  }

  lemma TailParts(w: Written, rest: string, tail: string)
    requires tail == w.length + [w.conv] + rest
    ensures |w.length| < |tail| && tail[..|w.length|] == w.length && tail[|w.length|] == w.conv
  {
  }

  lemma DotParts(fmt: string, w: Written, d: nat, p: nat, dot: string)
    requires d <= p <= |fmt| && fmt[d..p] == dot && dot == if w.precision.Some? then "." + w.precision.value else ""
    ensures match w.precision
            case None => p == d
            case Some(s) => d < p && fmt[d] == '.' && fmt[d + 1..p] == s
  {
    if w.precision.Some? { assert fmt[d] == dot[0] && fmt[d + 1..p] == dot[1..]; }
  }

  lemma SameLater(fmt: string, p: nat, tail: string, length: string, c: nat)
    requires p <= |fmt| && fmt[p..] == tail && c == p + |length| && |length| < |tail| && tail[..|length|] == length
    ensures c < |fmt| && fmt[p..c] == length && fmt[c] == tail[|length|]
  {
    assert fmt[p..][..|length|] == fmt[p..c] && fmt[c] == fmt[p..][|length|];
  }

  /** Main result: a field is read as it is written, whatever its parts and whatever comes behind it. */
  lemma FieldRead(w: Written, rest: string)
    requires WellWritten(w)
    ensures PieceAt("%" + WrittenText(w) + rest, 0) == Some((Field(MeantBy(w)), 1 + |WrittenText(w)|))
  {
    var fmt := "%" + WrittenText(w) + rest;
    assert fmt[0] == '%' && |fmt| > 1;
    var f, d, p, c := PartsLie(w, rest);
    NoPercent(fmt, w, f, d, p, c);
    hide WellWritten, WrittenText, LiesAt;
    SpecReads(fmt, 1, w, f, d, p, c);
    hide SpecAt;
  }

  lemma NoPercent(fmt: string, w: Written, f: nat, d: nat, p: nat, c: nat)
    requires LiesAt(fmt, 1, w, f, d, p, c) && WellWritten(w)
    ensures fmt[1] != '%'
  {
    PartsEnd(fmt, 1, w, f, d, p, c);
    if 1 < f { FirstOf(fmt, 1, f); }
    else if f < d { FirstOf(fmt, f, d); assert IsDigit(w.width[0], 10); }
    else if p == d && p < c { FirstOf(fmt, p, c); }
  }

  // --------------------------------------------------------------- whole formats

  /** A format that ends in no field, with just the arguments that it takes. */
  predicate Complete(fmt: string, args: seq<Arg>) {
    Whole(fmt, 0) && Served(Pieces(fmt, 0), args) && LeftOver(Pieces(fmt, 0), args) == []
  }

  lemma {:induction false} WholeTail(s: string, i: nat, t: string, j: nat)
    requires Ahead(s, i, t, j) && |s| - i == |t| - j && Whole(s, i)
    ensures Whole(t, j)
    decreases |s| - i
  {
    hide PieceAt, Ahead;
    if i < |s| {
      PieceSame(s, i, t, j);
      var next := PieceAt(s, i).value.1;
      AheadMore(s, i, t, j, next);
      WholeTail(s, next, t, j + (next - i));
    }
  }

  lemma {:induction false} WholeJoin(f: string, g: string, i: nat)
    requires i <= |f| && Whole(f, i) && Whole(g, 0)
    ensures Whole(f + g, i)
    decreases |f| - i
  {
    var joined := f + g;
    AheadJoin(f, g, i);
    hide PieceAt, Ahead;
    if i == |f| {
      WholeTail(g, 0, joined, i);
    } else {
      PieceSame(f, i, joined, i);
      var next := PieceAt(f, i).value.1;
      WholeJoin(f, g, next);
      assert PieceAt(joined, i).Some? && PieceAt(joined, i).value.1 == next && i < |joined|;
    }
  }

  lemma {:induction false} LeftOverJoin(p: seq<Piece>, q: seq<Piece>, a: seq<Arg>, b: seq<Arg>)
    requires Served(p, a) && LeftOver(p, a) == [] && Served(q, b)
    ensures Served(p + q, a + b) && LeftOver(p + q, a + b) == LeftOver(q, b)
    decreases |p|
  {
    if p == [] {
      assert [] + q == q && [] + b == b;
    } else {
      var rest := Rest(p[0], a);
      StepWider(p[0], a, b, BLANK);
      hide Suits, Rest;
      LeftOverJoin(p[1..], q, rest, b);
      assert (p + q)[0] == p[0] && (p + q)[1..] == p[1..] + q;
    }
  }

  /** Complete formats join to a complete one that prints the one text behind the other. */
  lemma CompleteJoin(f: string, g: string, a: seq<Arg>, b: seq<Arg>)
    requires Complete(f, a) && Complete(g, b)
    ensures Complete(f + g, a + b) && Formatted(f + g, a + b).text == Formatted(f, a).text + Formatted(g, b).text
  {
    PiecesJoin(f, g, 0);
    WholeJoin(f, g, 0);
    hide Whole, Pieces, Formatted;
    LeftOverJoin(Pieces(f, 0), Pieces(g, 0), a, b);
    FormatsJoin(f, g, a, b);
    hide Served, LeftOver;
  }

  /** A format of one piece. */
  lemma OnePiece(fmt: string, piece: Piece, args: seq<Arg>)
    requires fmt != "" && PieceAt(fmt, 0) == Some((piece, |fmt|)) && Suits(piece, args) && Rest(piece, args) == []
    ensures Complete(fmt, args) && Formatted(fmt, args) == Page(PieceText(piece, args), Stored(piece, args, 0))
  {
    hide PieceAt, Suits, Rest, PieceText, Stored;
    assert Whole(fmt, |fmt|) && Pieces(fmt, |fmt|) == [];
    assert Pieces(fmt, 0) == [piece] && [piece][1..] == [];
    assert Whole(fmt, 0);
    assert Served([], []) && LeftOver([], []) == [];
    assert Rendered([piece], args, BLANK) == Step(piece, args, BLANK);
  }

  /** What an ordinary character prints, and a percent sign written twice. */
  lemma OrdinaryPrints(ch: char)
    ensures ch != '%' ==> Complete([ch], []) && Formatted([ch], []) == Page([ch], [])
    ensures Complete("%%", []) && Formatted("%%", []) == Page("%", [])
  {
    if ch != '%' { OnePiece([ch], Plain(ch), []); }
    OnePiece("%%", Plain('%'), []);
    hide Complete, Formatted;
  }

  /** Main result: a field alone prints its text; one of an unknown conversion prints that behind a percent sign. */
  lemma FieldPrints(w: Written, args: seq<Arg>)
    requires WellWritten(w) && |args| == if Takes(Field(MeantBy(w))) then 1 else 0
    requires Takes(Field(MeantBy(w))) ==> Serves(w.conv, args[0])
    ensures Complete("%" + WrittenText(w), args)
    ensures Formatted("%" + WrittenText(w), args).text
            == if Takes(Field(MeantBy(w))) then FieldText(MeantBy(w), args[0]) else ['%', w.conv]
  {
    var fmt := "%" + WrittenText(w);
    FieldRead(w, "");
    assert fmt + "" == fmt && |fmt| == 1 + |WrittenText(w)|;
    assert MeantBy(w).conv == w.conv;
    hide PieceAt, WrittenText, WellWritten, Complete, Formatted, FieldText;
    OnePiece(fmt, Field(MeantBy(w)), args);
  }

  /** A count field behind a complete format prints nothing and stores the length so far, as an int. */
  lemma CountStored(f: string, a: seq<Arg>)
    requires Complete(f, a)
    ensures Complete(f + "%n", a + [Counter(true)])
    ensures var (before, page) := (Formatted(f, a), Formatted(f + "%n", a + [Counter(true)]));
            && page.text == before.text
            && page.counts == before.counts + [if |before.text| > 0x7FFF_FFFF then 0x7FFF_FFFF else |before.text|]
  {
    var w := Written("", "", None, "", 'n');
    CountPiece(w);
    hide PieceAt, WrittenText, WellWritten, MeantBy;
    var args, piece := [Counter(true)], Field(MeantBy(w));
    OnePiece("%n", piece, args);
    CompleteJoin(f, "%n", a, args);
    PiecesJoin(f, "%n", 0);
    RenderedJoin(Pieces(f, 0), Pieces("%n", 0), a, args, BLANK);
    CountLast(piece, args, Formatted(f, a));
    hide Served, LeftOver, Whole;
    assert Formatted(f, a).text + "" == Formatted(f, a).text;
  }

  lemma CountPiece(w: Written)
    requires w == Written("", "", None, "", 'n')
    ensures PieceAt("%n", 0) == Some((Field(MeantBy(w)), 2)) && MeantBy(w).conv == 'n' && Pieces("%n", 0) == [Field(MeantBy(w))]
  {
    assert "%" + WrittenText(w) + "" == "%n" && Value("", 10) == 0;
    FieldRead(w, "");
    hide PieceAt, WrittenText;
    assert Pieces("%n", 2) == [];
  }

  lemma CountLast(piece: Piece, args: seq<Arg>, done: Page)
    requires piece.Field? && piece.spec.conv == 'n' && args == [Counter(true)]
    ensures Served([piece], args)
    ensures Rendered([piece], args, done)
            == Page(done.text + "", done.counts + [if |done.text| > INT_MAX then INT_MAX else |done.text|])
  {
    assert [piece][1..] == [] && Rest(piece, args) == [] && Served([], []);
    assert Rendered([piece], args, done) == Step(piece, args, done);
  }

  // ------------------------------------------------------------ the manifest's line

  lemma StringPrints(s: string)
    ensures Complete("%s", [Text(Some(s))]) && Formatted("%s", [Text(Some(s))]).text == s
  {
    var w := Written("", "", None, "", 's');
    assert "%" + WrittenText(w) == "%s" && WellWritten(w) && MeantBy(w) == Spec(false, false, 0, None, false, 's');
    hide Complete, Formatted, FieldText, WrittenText, WellWritten, MeantBy;
    FieldPrints(w, [Text(Some(s))]);
    StringField(MeantBy(w), s, |s|);
    assert s[..|s|] == s;
  }

  lemma DecimalPrints(n: Word)
    ensures Complete("%llu", [Number(n)]) && Formatted("%llu", [Number(n)]).text == Decimal(n)
  {
    var w := Written("", "", None, "ll", 'u');
    assert "%" + WrittenText(w) == "%llu" && WellWritten(w);
    hide Complete, Formatted, FieldText, WrittenText, WellWritten;
    FieldPrints(w, [Number(n)]);
    PlainDecimal(n);
  }

  /** Three fields with ordinary text behind each. */
  lemma ThreeFields(f: string, g: string, h: string, bar: string, end: string, x: Arg, y: Arg, z: Arg)
    requires Complete(f, [x]) && Complete(g, [y]) && Complete(h, [z]) && Complete(bar, []) && Complete(end, [])
    ensures var (fmt, args) := (f + bar + g + bar + h + end, [x, y, z]);
            && Complete(fmt, args)
            && Formatted(fmt, args).text
               == Formatted(f, [x]).text + Formatted(bar, []).text + Formatted(g, [y]).text + Formatted(bar, []).text
                  + Formatted(h, [z]).text + Formatted(end, []).text
  {
    hide Complete, Formatted;
    assert [x] + [] == [x] && [x] + [y] == [x, y] && [x, y] + [] == [x, y] && [x, y] + [z] == [x, y, z] && [x, y, z] + [] == [x, y, z];
    CompleteJoin(f, bar, [x], []);
    CompleteJoin(f + bar, g, [x], [y]);
    CompleteJoin(f + bar + g, bar, [x, y], []);
    CompleteJoin(f + bar + g + bar, h, [x, y], [z]);
    CompleteJoin(f + bar + g + bar + h, end, [x, y, z], []);
  }

  const LINE_FORMAT := "%s|%llu|%s\n"

  lemma FormatParts()
    ensures LINE_FORMAT == "%s" + "|" + "%llu" + "|" + "%s" + "\n"
  {
  }

  lemma LineParts(e: Manifest.Entry)
    ensures Manifest.LineOf(e) + "\n" == e.path + "|" + Decimal(e.size) + "|" + e.hash + "\n"
  {
    assert [Manifest.BAR] == "|";
    hide Decimal;
  }

  /** Main result: the format that manifests are written with prints an entry's line. */
  lemma ManifestLine(e: Manifest.Entry)
    requires e.size < LIMIT
    ensures var args := [Text(Some(e.path)), Number(e.size), Text(Some(e.hash))];
            && Complete(LINE_FORMAT, args)
            && Formatted(LINE_FORMAT, args).text == Manifest.LineOf(e) + "\n"
  {
    var path, size, hash := Text(Some(e.path)), Number(e.size), Text(Some(e.hash));
    assert ['|'] == "|" && ['\n'] == "\n";
    hide Complete, Formatted, Manifest.LineOf, LINE_FORMAT, Decimal;
    StringPrints(e.path);
    DecimalPrints(e.size);
    StringPrints(e.hash);
    OrdinaryPrints('|');
    OrdinaryPrints('\n');
    ThreeFields("%s", "%llu", "%s", "|", "\n", path, size, hash);
    FormatParts();
    LineParts(e);
  }
}
