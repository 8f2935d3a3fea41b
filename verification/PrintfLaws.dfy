/** What a reader of formatted output may count on: joined formats, the width of fields, and reading numbers back. */
module PrintfLaws {
  import opened Options
  import opened Numerals
  import opened Printf

  // ------------------------------------------------------------- joined formats

  /** From j on, t goes on as s does from i to its end. */
  ghost predicate Ahead(s: string, i: nat, t: string, j: nat) { i <= |s| && j <= |t| && s[i..] <= t[j..] }

  lemma AheadAt(s: string, i: nat, t: string, j: nat, k: nat)
    requires Ahead(s, i, t, j) && i + k < |s|
    ensures j + k < |t| && s[i + k] == t[j + k]
  {
    assert s[i..][k] == t[j..][k];
  }

  lemma AheadMore(s: string, i: nat, t: string, j: nat, e: nat)
    requires Ahead(s, i, t, j) && i <= e <= |s|
    ensures Ahead(s, e, t, j + (e - i))
  {
    var n := e - i;
    assert s[i..][n..] == s[e..] && t[j..][n..] == t[j + n..];
    assert t[j..][..|s| - i][n..] == s[i..][n..];
    assert t[j + n..][..|s| - e] == t[j..][..|s| - i][n..];
  }

  lemma AheadSlice(s: string, i: nat, t: string, j: nat, e: nat)
    requires Ahead(s, i, t, j) && i <= e <= |s|
    ensures j + (e - i) <= |t| && s[i..e] == t[j..j + (e - i)]
  {
    var n := e - i;
    assert s[i..][..n] == s[i..e] && t[j..][..n] == t[j..j + n];
    assert t[j..][..|s| - i] == s[i..];
    assert t[j..][..|s| - i][..n] == t[j..][..n];
  }

  lemma {:induction false} FlagsSame(s: string, i: nat, t: string, j: nat)
    requires Ahead(s, i, t, j) && (FlagsEnd(s, i) < |s| || |s| - i == |t| - j)
    ensures FlagsEnd(t, j) - j == FlagsEnd(s, i) - i
    decreases |s| - i
  {
    if i < |s| {
      AheadAt(s, i, t, j, 0);
      if IsFlag(s[i]) {
        AheadMore(s, i, t, j, i + 1);
        FlagsSame(s, i + 1, t, j + 1);
      }
    }
  }

  lemma {:induction false} SizeSame(s: string, i: nat, t: string, j: nat, value: nat)
    requires Ahead(s, i, t, j) && (SizeFrom(s, i, value).1 < |s| || |s| - i == |t| - j)
    ensures SizeFrom(t, j, value).0 == SizeFrom(s, i, value).0
    ensures SizeFrom(t, j, value).1 - j == SizeFrom(s, i, value).1 - i
    decreases |s| - i
  {
    if i < |s| {
      AheadAt(s, i, t, j, 0);
      if IsDigit(s[i], 10) {
        AheadMore(s, i, t, j, i + 1);
        SizeSame(s, i + 1, t, j + 1, Accumulated(value, s[i]));
      }
    }
  }

  lemma PrecisionSame(s: string, i: nat, t: string, j: nat)
    requires Ahead(s, i, t, j) && (PrecisionFrom(s, i).1 < |s| || |s| - i == |t| - j)
    ensures PrecisionFrom(t, j).0 == PrecisionFrom(s, i).0
    ensures PrecisionFrom(t, j).1 - j == PrecisionFrom(s, i).1 - i
  {
    if i < |s| {
      AheadAt(s, i, t, j, 0);
      if s[i] == '.' {
        AheadMore(s, i, t, j, i + 1);
        SizeSame(s, i + 1, t, j + 1, 0);
      }
    }
  }

  lemma LengthSame(s: string, i: nat, t: string, j: nat)
    requires Ahead(s, i, t, j) && (LengthEnd(s, i) < |s| || |s| - i == |t| - j)
    ensures LengthEnd(t, j) - j == LengthEnd(s, i) - i
  {
    if i < |s| {
      AheadAt(s, i, t, j, 0);
      if i + 1 < |s| { AheadAt(s, i, t, j, 1); }
    }
  }

  lemma WidthSame(s: string, i: nat, t: string, j: nat)
    requires Ahead(s, i, t, j)
    requires var f := FlagsEnd(s, i); SizeFrom(s, f, 0).1 < |s| || |s| - i == |t| - j
    ensures var f, f' := FlagsEnd(s, i), FlagsEnd(t, j);
            && f' - j == f - i && SizeFrom(t, f', 0).0 == SizeFrom(s, f, 0).0
            && SizeFrom(t, f', 0).1 - j == SizeFrom(s, f, 0).1 - i
  {
    assert i <= |s| && j <= |t|;
    hide Ahead, FlagsEnd, SizeFrom;
    var f := FlagsEnd(s, i);
    FlagsSame(s, i, t, j);
    AheadMore(s, i, t, j, f);
    SizeSame(s, f, t, FlagsEnd(t, j), 0);
  }

  lemma ConvSame(s: string, i: nat, t: string, j: nat)
    requires Ahead(s, i, t, j)
    requires var p := PrecisionFrom(s, i).1; LengthEnd(s, p) < |s| || |s| - i == |t| - j
    ensures var p, p' := PrecisionFrom(s, i), PrecisionFrom(t, j);
            && p'.1 - j == p.1 - i && p'.0 == p.0 && LengthEnd(t, p'.1) - j == LengthEnd(s, p.1) - i
  {
    assert i <= |s| && j <= |t|;
    hide Ahead, PrecisionFrom, LengthEnd;
    var p := PrecisionFrom(s, i).1;
    PrecisionSame(s, i, t, j);
    AheadMore(s, i, t, j, p);
    LengthSame(s, p, t, PrecisionFrom(t, j).1);
  }

  lemma PlacesSame(s: string, i: nat, t: string, j: nat)
    requires Ahead(s, i, t, j) && (PlacesAt(s, i).conv < |s| || |s| - i == |t| - j)
    ensures var a, b := PlacesAt(s, i), PlacesAt(t, j);
            && b.flags - j == a.flags - i && b.width - j == a.width - i
            && b.precision - j == a.precision - i && b.conv - j == a.conv - i
            && SizeFrom(t, b.flags, 0).0 == SizeFrom(s, a.flags, 0).0
            && PrecisionFrom(t, b.width).0 == PrecisionFrom(s, a.width).0
  {
    assert i <= |s| && j <= |t|;
    PlacesAre(s, i);
    PlacesAre(t, j);
    hide *;
    var a, b := PlacesAt(s, i), PlacesAt(t, j);
    WidthSame(s, i, t, j);
    AheadMore(s, i, t, j, a.width);
    ConvSame(s, a.width, t, b.width);
  }

  lemma PlacesAre(fmt: string, i: nat)
    requires i <= |fmt|
    ensures var at := PlacesAt(fmt, i);
            && at.flags == FlagsEnd(fmt, i) && at.width == SizeFrom(fmt, at.flags, 0).1
            && at.precision == PrecisionFrom(fmt, at.width).1 && at.conv == LengthEnd(fmt, at.precision)
  {
  }

  lemma SpecSame(s: string, i: nat, t: string, j: nat)
    requires Ahead(s, i, t, j) && (SpecAt(s, i).Some? || |s| - i == |t| - j)
    ensures SpecAt(t, j).Some? <==> SpecAt(s, i).Some?
    ensures SpecAt(s, i).Some? ==>
              SpecAt(t, j).value.0 == SpecAt(s, i).value.0 && SpecAt(t, j).value.1 - j == SpecAt(s, i).value.1 - i
  {
    assert i <= |s| && j <= |t|;
    hide Ahead, PlacesAt, FlagsEnd, SizeFrom, PrecisionFrom, LengthEnd, Among;
    var a, b := PlacesAt(s, i), PlacesAt(t, j);
    assert SpecAt(s, i).Some? <==> a.conv < |s|;
    PlacesSame(s, i, t, j);
    AheadSlice(s, i, t, j, a.flags);
    assert s[i..a.flags] == t[j..b.flags];
    if a.conv < |s| {
      AheadAt(s, i, t, j, a.conv - i);
      assert s[a.conv] == t[b.conv];
    }
  }

  lemma PieceSame(s: string, i: nat, t: string, j: nat)
    requires Ahead(s, i, t, j) && i < |s| && (PieceAt(s, i).Some? || |s| - i == |t| - j)
    ensures PieceAt(t, j).Some? <==> PieceAt(s, i).Some?
    ensures PieceAt(s, i).Some? ==>
              PieceAt(t, j).value.0 == PieceAt(s, i).value.0 && PieceAt(t, j).value.1 - j == PieceAt(s, i).value.1 - i
  {
    AheadAt(s, i, t, j, 0);
    if s[i] == '%' {
      if i + 1 < |s| { AheadAt(s, i, t, j, 1); }
      AheadMore(s, i, t, j, i + 1);
      if !(i + 1 < |s| && s[i + 1] == '%') {
        if i + 1 == |s| { SpecEmpty(s, i + 1); }
        SpecSame(s, i + 1, t, j + 1);
      }
      hide SpecAt;
    }
  }

  lemma SpecEmpty(s: string, i: nat)
    requires i == |s|
    ensures SpecAt(s, i) == None
  {
  }

  lemma {:induction false} PiecesTail(s: string, i: nat, t: string, j: nat)
    requires Ahead(s, i, t, j) && |s| - i == |t| - j
    ensures Pieces(t, j) == Pieces(s, i)
    decreases |s| - i
  {
    hide PieceAt, Ahead;
    if i < |s| {
      PieceSame(s, i, t, j);
      if PieceAt(s, i).Some? {
        var next := PieceAt(s, i).value.1;
        AheadMore(s, i, t, j, next);
        PiecesTail(s, next, t, j + (next - i));
      }
    }
  }

  lemma AheadJoin(f: string, g: string, i: nat)
    requires i <= |f|
    ensures Ahead(f, i, f + g, i) && Ahead(g, 0, f + g, |f|)
  {
    assert (f + g)[i..] == f[i..] + g && (f + g)[|f|..] == g[0..];
  }

  lemma {:induction false} PiecesJoin(f: string, g: string, i: nat)
    requires i <= |f| && Whole(f, i)
    ensures Pieces(f + g, i) == Pieces(f, i) + Pieces(g, 0)
    decreases |f| - i
  {
    var joined := f + g;
    AheadJoin(f, g, i);
    hide PieceAt, Ahead;
    if i == |f| {
      PiecesTail(g, 0, joined, i);
    } else {
      PieceSame(f, i, joined, i);
      PiecesJoin(f, g, PieceAt(f, i).value.1);
    }
  }

  lemma {:induction false} RenderedJoin(p: seq<Piece>, q: seq<Piece>, a: seq<Arg>, b: seq<Arg>, done: Page)
    requires Served(p, a) && LeftOver(p, a) == [] && Served(q, b)
    ensures Served(p + q, a + b) && Rendered(p + q, a + b, done) == Rendered(q, b, Rendered(p, a, done))
  {
    if p == [] {
      assert [] + q == q && [] + b == b;
    } else {
      var rest, next := Rest(p[0], a), Step(p[0], a, done);
      StepWider(p[0], a, b, done);
      hide Step, Suits, Rest;
      RenderedJoin(p[1..], q, rest, b, next);
      var joined := p + q;
      assert joined[0] == p[0] && joined[1..] == p[1..] + q;
      assert Served(joined, a + b);
    }
  }

  lemma StepWider(p: Piece, a: seq<Arg>, b: seq<Arg>, done: Page)
    requires Suits(p, a)
    ensures Suits(p, a + b) && Rest(p, a + b) == Rest(p, a) + b && Step(p, a + b, done) == Step(p, a, done)
  {
    if Takes(p) {
      assert (a + b)[0] == a[0] && (a + b)[1..] == a[1..] + b;
    }
  }

  lemma {:induction false} RenderedExtends(p: seq<Piece>, a: seq<Arg>, done: Page)
    requires Served(p, a)
    ensures done.text <= Rendered(p, a, done).text
  {
    if p != [] {
      var next := Step(p[0], a, done);
      RenderedExtends(p[1..], Rest(p[0], a), next);
      assert done.text <= next.text;
      hide Step, Rest, Suits;
    }
  }

  lemma {:induction false} RenderedAfter(p: seq<Piece>, a: seq<Arg>, done: Page)
    requires Served(p, a)
    ensures Rendered(p, a, done).text == done.text + Rendered(p, a, BLANK).text
    decreases |p|
  {
    if p != [] {
      var rest, there, here := Rest(p[0], a), Step(p[0], a, done), Step(p[0], a, BLANK);
      StepAfter(p[0], a, done);
      assert Rendered(p, a, done) == Rendered(p[1..], rest, there) && Rendered(p, a, BLANK) == Rendered(p[1..], rest, here);
      hide *;
      RenderedAfter(p[1..], rest, there);
      RenderedAfter(p[1..], rest, here);
      Joined(done.text, here.text, Rendered(p[1..], rest, BLANK).text);
    } else {
      assert done.text + "" == done.text;
    }
  }

  lemma StepAfter(p: Piece, a: seq<Arg>, done: Page)
    requires Suits(p, a)
    ensures Step(p, a, done).text == done.text + Step(p, a, BLANK).text
  {
    assert Step(p, a, BLANK).text == PieceText(p, a);
    hide PieceText;
  }

  lemma Joined(a: string, b: string, c: string)
    ensures (a + b) + c == a + (b + c)
  {
  }

  /** No piece stores a count. */
  predicate Countless(p: seq<Piece>) { forall k | 0 <= k < |p| :: !(p[k].Field? && p[k].spec.conv == 'n') }

  lemma {:induction false} CountsKept(p: seq<Piece>, a: seq<Arg>, done: Page)
    requires Served(p, a) && Countless(p)
    ensures Rendered(p, a, done).counts == done.counts
    decreases |p|
  {
    if p != [] {
      CountsKept(p[1..], Rest(p[0], a), Step(p[0], a, done));
    }
  }

  /** Main result: a format joined to a whole one prints what the two print, one behind the other. */
  lemma FormatsJoin(f: string, g: string, a: seq<Arg>, b: seq<Arg>)
    requires Whole(f, 0) && Served(Pieces(f, 0), a) && LeftOver(Pieces(f, 0), a) == [] && Served(Pieces(g, 0), b)
    ensures Served(Pieces(f + g, 0), a + b)
    ensures Formatted(f + g, a + b).text == Formatted(f, a).text + Formatted(g, b).text
    ensures Countless(Pieces(g, 0)) ==> Formatted(f + g, a + b).counts == Formatted(f, a).counts
  {
    PiecesJoin(f, g, 0);
    hide Whole, Pieces;
    RenderedJoin(Pieces(f, 0), Pieces(g, 0), a, b, BLANK);
    RenderedAfter(Pieces(g, 0), b, Formatted(f, a));
    if Countless(Pieces(g, 0)) { CountsKept(Pieces(g, 0), b, Formatted(f, a)); }
    hide Rendered, Served, LeftOver;
  }

  /** A format that ends inside a field does not have this property. */
  lemma CutFormatDoesNot()
    ensures !Whole("%", 0) && Formatted("%", []).text == "" && Formatted("d", []).text == "d"
    ensures Served(Pieces("%" + "d", 0), [Number(7)]) && Formatted("%" + "d", [Number(7)]).text != "d"
  {
    assert SpecAt("%", 1) == None;
    assert PieceAt("d", 0) == Some((Plain('d'), 1));
    assert Pieces("d", 0) == [Plain('d')];
    assert Rest(Plain('d'), []) == [];
    var spec := Spec(false, false, 0, None, false, 'd');
    assert "%" + "d" == "%d";
    assert SpecAt("%d", 1) == Some((spec, 2)) by {
      assert FlagsEnd("%d", 1) == 1 && SizeFrom("%d", 1, 0) == (0, 1) && PrecisionFrom("%d", 1) == (None, 1);
    }
    assert PieceAt("%d", 0) == Some((Field(spec), 2));
    assert Pieces("%d", 0) == [Field(spec)];
    var page := Formatted("%d", [Number(7)]);
    assert page == Step(Field(spec), [Number(7)], BLANK);
    assert page.text == NumberText(spec, 7);
    assert Signed(7, false) == 7 && Magnitude(spec, 7) == 7;
    assert SomeDigits(7, 10, false) == SomeDigits(0, 10, false) + ['7'];
    assert page.text[|page.text| - 1] == '7';
  }

  // ---------------------------------------------------------------------- fields

  function Max(a: nat, b: nat): nat { if a > b then a else b }

  /** A number is as wide as asked, or as long as its sign and digits if they are longer. */
  lemma NumberWidth(spec: Spec, bits: Word)
    ensures |NumberText(spec, bits)|
            == Max(spec.width, |Prefix(spec, bits)| + Max(if spec.precision.Some? then spec.precision.value else 0, |Shown(spec, bits)|))
  {
    hide Prefix, Shown, ZeroFills;
  }

  lemma DigitsUnfold(n: nat, base: nat, upper: bool)
    requires 2 <= base <= 16 && n > 0
    ensures SomeDigits(n, base, upper)
            == SomeDigits(Quotient(n, base), base, upper) + [DigitChar(LastDigit(n, base), upper)]
  {
  }

  lemma {:induction false} DigitsValue(n: nat, base: nat, upper: bool)
    requires 2 <= base <= 16
    ensures Value(SomeDigits(n, base, upper), base) == n
    decreases n
  {
    if n > 0 {
      DigitsUnfold(n, base, upper);
      DivMod(n, base);
      var q, d := Quotient(n, base), LastDigit(n, base);
      assert q * base + d == n;
      hide SomeDigits, Quotient, LastDigit, Value, AllDigits;
      DigitsValue(q, base, upper);
      ValueEnd(SomeDigits(q, base, upper), DigitChar(d, upper), base);
    } else {
      assert SomeDigits(n, base, upper) == "";
    }
  }

  lemma ValueEnd(s: string, ch: char, base: nat)
    requires AllDigits(s, base) && IsDigit(ch, base)
    ensures AllDigits(s + [ch], base) && Value(s + [ch], base) == Value(s, base) * base + DigitValue(ch)
  {
    assert (s + [ch])[..|s|] == s;
  }

  lemma DivMod(n: nat, base: nat)
    requires base > 0
    ensures n / base * base + n % base == n
  {
  }

  lemma {:induction false} LeadingZeros(n: nat, s: string, base: nat)
    requires 2 <= base && AllDigits(s, base)
    ensures AllDigits(Repeat('0', n) + s, base) && Value(Repeat('0', n) + s, base) == Value(s, base)
    decreases n + |s|
  {
    var whole := Repeat('0', n) + s;
    assert forall k | 0 <= k < |whole| :: whole[k] == if k < n then '0' else s[k - n];
    if s != "" {
      LeadingZeros(n, s[..|s| - 1], base);
      assert whole[..|whole| - 1] == Repeat('0', n) + s[..|s| - 1];
    } else if n > 0 {
      LeadingZeros(n - 1, s, base);
      assert whole[..|whole| - 1] == Repeat('0', n - 1) + s;
    }
  }

  /** The digits of a field with the zeros before them: those of its precision, and those that fill its width. */
  function Body(spec: Spec, bits: Word): string {
    var digits := Shown(spec, bits);
    var body := Repeat('0', Leading(spec, |digits|)) + digits;
    if !spec.left && ZeroFills(spec) then Repeat('0', Gap(spec.width, |Prefix(spec, bits)| + |body|)) + body else body
  }

  lemma ShownValue(spec: Spec, bits: Word)
    ensures Value(Shown(spec, bits), Base(spec.conv)) == Magnitude(spec, bits)
    ensures Shown(spec, bits) == "" ==> Magnitude(spec, bits) == 0
  {
    var m, base := Magnitude(spec, bits), Base(spec.conv);
    assert Value("0", base) == 0 by { ValueNext("0", base); assert "0"[..0] == ""; }
    DigitsValue(m, base, spec.conv == 'X');
    hide Magnitude, SomeDigits;
  }

  lemma BodyValue(spec: Spec, bits: Word)
    ensures AllDigits(Body(spec, bits), Base(spec.conv))
    ensures Value(Body(spec, bits), Base(spec.conv)) == Magnitude(spec, bits)
    ensures Body(spec, bits) == "" ==> Magnitude(spec, bits) == 0
  {
    hide Shown, Magnitude, Base, Prefix, Leading, ZeroFills, Value, AllDigits;
    var base, digits := Base(spec.conv), Shown(spec, bits);
    ShownValue(spec, bits);
    var body := Repeat('0', Leading(spec, |digits|)) + digits;
    LeadingZeros(Leading(spec, |digits|), digits, base);
    LeadingZeros(Gap(spec.width, |Prefix(spec, bits)| + |body|), body, base);
  }

  /** The spaces before a number, and those behind it. */
  function Lead(spec: Spec, bits: Word): nat {
    if spec.left || ZeroFills(spec) then 0 else Gap(spec.width, |Prefix(spec, bits)| + |Body(spec, bits)|)
  }

  function Trail(spec: Spec, bits: Word): nat {
    if spec.left then Gap(spec.width, |Prefix(spec, bits)| + |Body(spec, bits)|) else 0
  }

  lemma NumberParts(spec: Spec, bits: Word)
    ensures NumberText(spec, bits)
            == Repeat(' ', Lead(spec, bits)) + Prefix(spec, bits) + Body(spec, bits) + Repeat(' ', Trail(spec, bits))
  {
    hide Prefix, Shown, Leading, ZeroFills;
    assert Repeat(' ', 0) == "";
  }

  // ---------------------------------------------------------------- reading back

  /** A text is spaces, a sign or hexadecimal prefix, digits, and spaces. */
  ghost predicate Shaped(text: string, lead: nat, prefix: string, body: string, trail: nat, base: nat) {
    && text == Repeat(' ', lead) + prefix + body + Repeat(' ', trail)
    && (base == 10 || base == 16) && AllDigits(body, base)
    && (prefix == "" || prefix == "-" || (prefix == "0x" && base == 16))
  }

  lemma ShapedAt(text: string, lead: nat, prefix: string, body: string, trail: nat, base: nat)
    requires Shaped(text, lead, prefix, body, trail, base)
    ensures var first := lead + |prefix|; var end := first + |body|;
            && |text| == end + trail && text[lead..first] == prefix && text[first..end] == body
            && (forall k | 0 <= k < lead || end <= k < |text| :: text[k] == ' ')
  {
  }

  lemma SkipsSpaces(text: string, lead: nat, prefix: string, body: string, trail: nat, base: nat)
    requires Shaped(text, lead, prefix, body, trail, base)
    ensures SkipsTo(text, if prefix == "" && body == "" then |text| else lead)
  {
    ShapedAt(text, lead, prefix, body, trail, base);
    if prefix != "" {
      assert text[lead..lead + |prefix|][0] == prefix[0];
    } else if body != "" {
      assert text[lead..lead + |body|][0] == body[0];
      assert IsDigit(body[0], base);
    }
  }

  lemma FirstDigit(text: string, lead: nat, prefix: string, body: string, trail: nat, base: nat)
    requires Shaped(text, lead, prefix, body, trail, base) && (prefix != "" || body != "")
    ensures var start := if HasSign(text, lead) then lead + 1 else lead;
            && DigitsAt(text, start, base) == lead + |prefix| && (IsNegative(text, lead) <==> prefix == "-")
  {
    ShapedAt(text, lead, prefix, body, trail, base);
    var first := lead + |prefix|;
    var end := first + |body|;
    forall k | first <= k < |text|
      ensures text[k] != 'x' && text[k] != 'X' && text[k] != '-' && text[k] != '+'
    {
      if k < end {
        assert text[k] == text[first..end][k - first] == body[k - first];
        assert IsDigit(body[k - first], base);
      }
    }
    if prefix != "" {
      assert text[lead] == text[lead..first][0] == prefix[0];
      if prefix == "0x" { assert text[lead + 1] == text[lead..first][1] == 'x'; }
    }
  }

  lemma RunsBody(text: string, lead: nat, prefix: string, body: string, trail: nat, base: nat)
    requires Shaped(text, lead, prefix, body, trail, base)
    ensures var first := lead + |prefix|; RunsTo(text, first, first + |body|, base) && text[first..first + |body|] == body
  {
    ShapedAt(text, lead, prefix, body, trail, base);
  }

  lemma RunsNothing(text: string, base: nat)
    ensures RunsTo(text, |text|, |text|, base)
  {
  }

  lemma ShapedLocated(text: string, lead: nat, prefix: string, body: string, trail: nat, base: nat) returns (i: nat, first: nat, j: nat)
    requires Shaped(text, lead, prefix, body, trail, base)
    ensures Located(text, base, i, base, first, j) && text[first..j] == body && (IsNegative(text, i) <==> prefix == "-")
    ensures body != "" ==> j == lead + |prefix| + |body|
  {
    SkipsSpaces(text, lead, prefix, body, trail, base);
    SkipsWithin(text, if prefix == "" && body == "" then |text| else lead);
    if prefix == "" && body == "" {
      RunsNothing(text, base);
      i, first, j := |text|, |text|, |text|;
    } else {
      FirstDigit(text, lead, prefix, body, trail, base);
      RunsBody(text, lead, prefix, body, trail, base);
      i, first := lead, lead + |prefix|;
      j := first + |body|;
    }
    hide SkipsTo, RunsTo;
  }

  lemma ShapedReads(text: string, lead: nat, prefix: string, body: string, trail: nat, base: nat)
    requires Shaped(text, lead, prefix, body, trail, base) && Value(body, base) < LIMIT
    ensures Scanned(text, base, if body == "" then Scan(0, 0)
                                else Scan(if prefix == "-" then Negated(Value(body, base)) else Value(body, base),
                                          lead + |prefix| + |body|))
  {
    var i, first, j := ShapedLocated(text, lead, prefix, body, trail, base);
    assert first <= j <= |text|;
    hide *;
    LocatedScan(text, base, i, base, first, j);
  }

  lemma ShapedReadsSigned(text: string, lead: nat, prefix: string, body: string, trail: nat, base: nat)
    requires Shaped(text, lead, prefix, body, trail, base)
    ensures if body == "" then ScannedSigned(text, base, 0, 0)
            else ScannedSigned(text, base, Clamped(prefix == "-", Value(body, base)), lead + |prefix| + |body|)
  {
    var i, first, j := ShapedLocated(text, lead, prefix, body, trail, base);
    assert first <= j <= |text|;
    hide *;
    LocatedScanSigned(text, base, i, base, first, j);
  }

  /** The number a field shows, as a 64-bit word: extended by its sign if it is signed. */
  function Extended(spec: Spec, bits: Word): (w: Word)
  {
    if IsSigned(spec.conv) && Signed(bits, spec.wide) < 0 then LIMIT + Signed(bits, spec.wide) else Magnitude(spec, bits)
  }

  /** A 64-bit conversion shows the word itself, whatever its sign. */
  lemma WideIsWhole(spec: Spec, bits: Word)
    requires spec.wide || spec.conv == 'p'
    requires IsNumeric(spec.conv)
    ensures Extended(spec, bits) == bits
  {
  }

  lemma NumberShaped(spec: Spec, bits: Word)
    requires IsNumeric(spec.conv)
    ensures Shaped(NumberText(spec, bits), Lead(spec, bits), Prefix(spec, bits), Body(spec, bits), Trail(spec, bits), Base(spec.conv))
  {
    NumberParts(spec, bits);
    BodyValue(spec, bits);
    hide NumberText, Lead, Trail, Body, Value, Repeat, Magnitude, AllDigits, Signed;
  }

  lemma ExtendedIs(spec: Spec, bits: Word)
    ensures Extended(spec, bits)
            == if Prefix(spec, bits) == "-" then Negated(Magnitude(spec, bits)) else Magnitude(spec, bits)
  {
    hide Signed;
  }

  /**
   * Main result: whatever the flags, width and precision, scanning a number field in its base gives back the number,
   * and the scan ends with the digits.
   */
  lemma FieldReads(spec: Spec, bits: Word)
    requires IsNumeric(spec.conv)
    ensures Scanned(NumberText(spec, bits), Base(spec.conv),
                    Scan(Extended(spec, bits),
                         if Body(spec, bits) == "" then 0
                         else Lead(spec, bits) + |Prefix(spec, bits)| + |Body(spec, bits)|))
  {
    hide *;
    NumberShaped(spec, bits);
    BodyValue(spec, bits);
    ExtendedIs(spec, bits);
    NoDigitsNoSign(spec, bits);
    ShapedReads(NumberText(spec, bits), Lead(spec, bits), Prefix(spec, bits), Body(spec, bits), Trail(spec, bits), Base(spec.conv));
  }

  lemma NoDigitsNoSign(spec: Spec, bits: Word)
    ensures Magnitude(spec, bits) == 0 ==> Extended(spec, bits) == 0
  {
    hide Signed;
  }

  /** Main result: a signed scan gives back the number of a signed field, the least of all included. */
  lemma SignedFieldReads(spec: Spec, bits: Word)
    requires IsSigned(spec.conv)
    ensures ScannedSigned(NumberText(spec, bits), 10, Signed(bits, spec.wide),
                          if Body(spec, bits) == "" then 0 else Lead(spec, bits) + |Prefix(spec, bits)| + |Body(spec, bits)|)
  {
    hide *;
    SignedIs(spec, bits);
    NumberShaped(spec, bits);
    BodyValue(spec, bits);
    ShapedReadsSigned(NumberText(spec, bits), Lead(spec, bits), Prefix(spec, bits), Body(spec, bits), Trail(spec, bits), 10);
  }

  lemma SignedIs(spec: Spec, bits: Word)
    requires IsSigned(spec.conv)
    ensures IsNumeric(spec.conv) && Base(spec.conv) == 10
    ensures Clamped(Prefix(spec, bits) == "-", Magnitude(spec, bits)) == Signed(bits, spec.wide)
    ensures Magnitude(spec, bits) == 0 ==> Signed(bits, spec.wide) == 0
  {
    hide Signed;
  }

  // -------------------------------------------------------------------- decimals

  lemma {:induction false} DigitsDecimal(n: nat)
    requires n > 0
    ensures SomeDigits(n, 10, false) == Decimal(n)
  {
    if n >= 10 {
      DigitsDecimal(n / 10);
    } else {
      assert SomeDigits(0, 10, false) == "";
      assert SomeDigits(n, 10, false) == "" + [DigitChar(n, false)];
    }
  }

  lemma OneNumber(spec: Spec, bits: Word)
    requires IsNumeric(spec.conv)
    ensures var pieces, args := [Field(spec)], [Number(bits)];
            Served(pieces, args) && Rendered(pieces, args, BLANK).text == NumberText(spec, bits)
  {
    var pieces, args := [Field(spec)], [Number(bits)];
    assert Suits(pieces[0], args) && Rest(pieces[0], args) == [] && pieces[1..] == [];
    assert Served(pieces[1..], []);
    assert Step(pieces[0], args, BLANK).text == "" + NumberText(spec, bits);
  }

  /** What the manifest is written with: plain 64-bit decimals. */
  lemma PlainDecimal(n: Word)
    ensures Served(Pieces("%llu", 0), [Number(n)])
    ensures Formatted("%llu", [Number(n)]).text == Decimal(n)
  {
    var spec := Spec(false, false, 0, None, true, 'u');
    PlainPieces();
    var page := Formatted("%llu", [Number(n)]);
    OneNumber(spec, n);
    assert page.text == NumberText(spec, n);
    if n > 0 { DigitsDecimal(n); }
    var digits := Digits(n, 10, false);
    assert Shown(spec, n) == digits == Decimal(n);
    assert Repeat('0', 0) == "" && Repeat(' ', 0) == "";
    hide Shown, Decimal;
  }

  lemma PlainPieces()
    ensures Pieces("%llu", 0) == [Field(Spec(false, false, 0, None, true, 'u'))]
  {
    var f := "%llu";
    assert FlagsEnd(f, 1) == 1 && SizeFrom(f, 1, 0) == (0, 1) && PrecisionFrom(f, 1) == (None, 1) && LengthEnd(f, 1) == 3;
    assert PlacesAt(f, 1) == Places(1, 1, 1, 3);
    assert f[1..1] == "";
    assert SpecAt(f, 1) == Some((Spec(false, false, 0, None, true, 'u'), 4));
    assert Pieces(f, 4) == [];
  }
}
