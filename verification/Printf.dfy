/** What formatted output means: the pieces of a format, the text of each field, and the text of the whole. */
module Printf {
  import opened Options
  import opened Numerals

  const INT_MAX: nat := 0x7FFF_FFFF

  /** A register's worth of argument. */
  type Word = w: nat | w < LIMIT

  /** An argument: a number, a string (perhaps null), or where to store a count (perhaps null). */
  datatype Arg = Number(bits: Word) | Text(value: Option<string>) | Counter(present: bool)

  datatype Spec = Spec(left: bool, zero: bool, width: nat, precision: Option<nat>, wide: bool, conv: char)

  datatype Piece = Plain(ch: char) | Field(spec: Spec)

  // --------------------------------------------------------------------- formats

  predicate IsFlag(ch: char) { ch == '-' || ch == '0' }

  function FlagsEnd(fmt: string, i: nat): (j: nat)
    requires i <= |fmt|
    ensures i <= j <= |fmt| && (j < |fmt| ==> !IsFlag(fmt[j]))
    decreases |fmt| - i
  {
    if i < |fmt| && IsFlag(fmt[i]) then FlagsEnd(fmt, i + 1) else i
  }

  /** Widths and precisions are accumulated in 64 bits. */
  function Accumulated(value: nat, ch: char): nat
    requires IsDigit(ch, 10)
  {
    (value * 10 + DigitValue(ch)) % LIMIT
  }

  function SizeFrom(fmt: string, i: nat, value: nat): (r: (nat, nat))
    requires i <= |fmt|
    ensures i <= r.1 <= |fmt| && (r.1 < |fmt| ==> !IsDigit(fmt[r.1], 10))
    decreases |fmt| - i
  {
    if i < |fmt| && IsDigit(fmt[i], 10) then SizeFrom(fmt, i + 1, Accumulated(value, fmt[i])) else (value, i)
  }

  function PrecisionFrom(fmt: string, i: nat): (r: (Option<nat>, nat))
    requires i <= |fmt|
    ensures i <= r.1 <= |fmt|
  {
    if i < |fmt| && fmt[i] == '.' then
      var size := SizeFrom(fmt, i + 1, 0);
      (Some(size.0), size.1)
    else (None, i)
  }

  function LengthEnd(fmt: string, i: nat): (j: nat)
    requires i <= |fmt|
    ensures i <= j <= |fmt|
  {
    if i < |fmt| && fmt[i] == 'l' then (if i + 1 < |fmt| && fmt[i + 1] == 'l' then i + 2 else i + 1)
    else if i < |fmt| && fmt[i] == 'z' then i + 1
    else i
  }

  predicate Among(ch: char, flags: string) { ch in flags }

  /** The places where a field's flags, width, precision and length end. */
  datatype Places = Places(flags: nat, width: nat, precision: nat, conv: nat)

  function PlacesAt(fmt: string, i: nat): (r: Places)
    requires i <= |fmt|
    ensures i <= r.flags <= r.width <= r.precision <= r.conv <= |fmt|
  {
    var f := FlagsEnd(fmt, i);
    var w := SizeFrom(fmt, f, 0).1;
    var p := PrecisionFrom(fmt, w).1;
    Places(f, w, p, LengthEnd(fmt, p))
  }

  /** A field from just behind its percent sign, and where the format goes on; none if the format ends inside. */
  function SpecAt(fmt: string, i: nat): (r: Option<(Spec, nat)>)
    requires i <= |fmt|
    ensures r.Some? ==> i < r.value.1 <= |fmt|
  {
    var at := PlacesAt(fmt, i);
    if at.conv == |fmt| then None
    else
      var flags := fmt[i..at.flags];
      Some((Spec(Among('-', flags), Among('0', flags), SizeFrom(fmt, at.flags, 0).0, PrecisionFrom(fmt, at.width).0,
                 at.conv > at.precision, fmt[at.conv]),
            at.conv + 1))
  }

  function PieceAt(fmt: string, i: nat): (r: Option<(Piece, nat)>)
    requires i < |fmt|
    ensures r.Some? ==> i < r.value.1 <= |fmt|
  {
    if fmt[i] != '%' then Some((Plain(fmt[i]), i + 1))
    else if i + 1 < |fmt| && fmt[i + 1] == '%' then Some((Plain('%'), i + 2))
    else
      match SpecAt(fmt, i + 1)
      case None => None
      case Some(d) => Some((Field(d.0), d.1))
  }

  /** The pieces from a place on; a field that the end of the format cuts off is dropped. */
  function Pieces(fmt: string, i: nat): seq<Piece>
    requires i <= |fmt|
    decreases |fmt| - i
  {
    if i == |fmt| then []
    else
      match PieceAt(fmt, i)
      case None => []
      case Some(p) => [p.0] + Pieces(fmt, p.1)
  }

  /** No field is cut off. */
  predicate Whole(fmt: string, i: nat)
    requires i <= |fmt|
    decreases |fmt| - i
  {
    i == |fmt| || (PieceAt(fmt, i).Some? && Whole(fmt, PieceAt(fmt, i).value.1))
  }

  // ---------------------------------------------------------------------- fields

  predicate IsSigned(conv: char) { conv == 'd' || conv == 'i' }

  predicate IsNumeric(conv: char) { IsSigned(conv) || conv in {'u', 'x', 'X', 'p'} }

  predicate Takes(p: Piece) { p.Field? && (IsNumeric(p.spec.conv) || p.spec.conv in {'s', 'c', 'n'}) }

  /** An argument is of the kind a conversion asks for. */
  predicate Serves(conv: char, arg: Arg) {
    && (IsNumeric(conv) || conv == 'c' ==> arg.Number?)
    && (conv == 's' ==> arg.Text?)
    && (conv == 'n' ==> arg.Counter?)
  }

  function Repeat(ch: char, n: nat): string { seq(n, _ => ch) }

  function DigitChar(d: nat, upper: bool): (ch: char)
    requires d < 16
    ensures DigitValue(ch) == d
  {
    if d < 10 then '0' + d as char else (if upper then 'A' else 'a') + (d - 10) as char
  }

  function Quotient(n: nat, base: nat): (q: nat)
    requires base >= 2
    ensures n > 0 ==> q < n
  {
    DivisionBounds(n, base);
    Scale(2, base, n / base);
    n / base
  }

  function LastDigit(n: nat, base: nat): (d: nat)
    requires 2 <= base <= 16
    ensures d < base
  {
    n % base
  }

  /** The digits of a number, none of zero. */
  function SomeDigits(n: nat, base: nat, upper: bool): (s: string)
    requires 2 <= base <= 16
    ensures AllDigits(s, base) && (s == "" <==> n == 0)
    decreases n
  {
    if n == 0 then ""
    else SomeDigits(Quotient(n, base), base, upper) + [DigitChar(LastDigit(n, base), upper)]
  }

  function Digits(n: nat, base: nat, upper: bool): (s: string)
    requires 2 <= base <= 16
    ensures AllDigits(s, base) && s != ""
  {
    if n == 0 then "0" else SomeDigits(n, base, upper)
  }

  function Signed(bits: Word, wide: bool): (v: int)
    ensures -(LIMIT / 2) <= v < LIMIT / 2
  {
    var n := if wide then LIMIT else 0x1_0000_0000;
    if bits % n >= n / 2 then bits % n - n else bits % n
  }

  function Unsigned(bits: Word, wide: bool): (v: nat)
    ensures v < LIMIT
  {
    if wide then bits else bits % 0x1_0000_0000
  }

  /** The number a field shows: what stands before its digits, and its magnitude. */
  function Prefix(spec: Spec, bits: Word): string {
    if IsSigned(spec.conv) && Signed(bits, spec.wide) < 0 then "-" else if spec.conv == 'p' then "0x" else ""
  }

  function Magnitude(spec: Spec, bits: Word): (m: nat)
    ensures m < LIMIT
  {
    if IsSigned(spec.conv) then
      (if Signed(bits, spec.wide) < 0 then -Signed(bits, spec.wide) else Signed(bits, spec.wide))
    else if spec.conv == 'p' then bits
    else Unsigned(bits, spec.wide)
  }

  function Base(conv: char): (base: nat)
    ensures base == 10 || base == 16
  {
    if IsSigned(conv) || conv == 'u' then 10 else 16
  }

  /** The digits shown; a zero of precision zero has none. */
  function Shown(spec: Spec, bits: Word): (s: string)
    ensures AllDigits(s, Base(spec.conv))
  {
    if spec.precision == Some(0) && Magnitude(spec, bits) == 0 then ""
    else Digits(Magnitude(spec, bits), Base(spec.conv), spec.conv == 'X')
  }

  function Gap(wanted: nat, length: nat): nat { if wanted > length then wanted - length else 0 }

  /** The zeros that a precision asks for. */
  function Leading(spec: Spec, shown: nat): nat { if spec.precision.Some? then Gap(spec.precision.value, shown) else 0 }

  /** Zeros fill a width unless there is a precision; those of a pointer never do. */
  predicate ZeroFills(spec: Spec) { spec.zero && spec.precision == None && spec.conv != 'p' }

  function NumberText(spec: Spec, bits: Word): string {
    var prefix, digits := Prefix(spec, bits), Shown(spec, bits);
    var body := Repeat('0', Leading(spec, |digits|)) + digits;
    var gap := Gap(spec.width, |prefix| + |body|);
    if spec.left then prefix + body + Repeat(' ', gap)
    else if ZeroFills(spec) then prefix + (Repeat('0', gap) + body)
    else Repeat(' ', gap) + prefix + body
  }

  function Aligned(text: string, left: bool, width: nat): string {
    var gap := Repeat(' ', Gap(width, |text|));
    if left then text + gap else gap + text
  }

  function Limited(text: string, precision: Option<nat>): string {
    if precision.Some? && precision.value < |text| then text[..precision.value] else text
  }

  function FieldText(spec: Spec, arg: Arg): string
    requires Takes(Field(spec)) && Serves(spec.conv, arg)
  {
    if IsNumeric(spec.conv) then NumberText(spec, arg.bits)
    else if spec.conv == 's' then
      Aligned(Limited(if arg.value.Some? then arg.value.value else "(null)", spec.precision), spec.left, spec.width)
    else if spec.conv == 'c' then Aligned([(arg.bits % 256) as char], spec.left, spec.width)
    else ""
  }

  // ----------------------------------------------------------------- whole texts

  /** What has come of a format: the text, and the counts stored on the way. */
  datatype Page = Page(text: string, counts: seq<nat>)

  const BLANK := Page("", [])

  predicate Suits(p: Piece, args: seq<Arg>) { Takes(p) ==> args != [] && Serves(p.spec.conv, args[0]) }

  function Rest(p: Piece, args: seq<Arg>): seq<Arg>
    requires Suits(p, args)
  {
    if Takes(p) then args[1..] else args
  }

  function PieceText(p: Piece, args: seq<Arg>): string
    requires Suits(p, args)
  {
    if p.Plain? then [p.ch]
    else if !Takes(p) then ['%', p.spec.conv]
    else FieldText(p.spec, args[0])
  }

  function Stored(p: Piece, args: seq<Arg>, count: nat): seq<nat>
    requires Suits(p, args)
  {
    if p.Field? && p.spec.conv == 'n' && args[0].present then [if count > INT_MAX then INT_MAX else count] else []
  }

  function Step(p: Piece, args: seq<Arg>, done: Page): Page
    requires Suits(p, args)
  {
    Page(done.text + PieceText(p, args), done.counts + Stored(p, args, |done.text|))
  }

  /** There is an argument of the right kind for every piece that takes one. */
  predicate Served(pieces: seq<Piece>, args: seq<Arg>) {
    pieces == [] || (Suits(pieces[0], args) && Served(pieces[1..], Rest(pieces[0], args)))
  }

  function Rendered(pieces: seq<Piece>, args: seq<Arg>, done: Page): Page
    requires Served(pieces, args)
  {
    if pieces == [] then done
    else Rendered(pieces[1..], Rest(pieces[0], args), Step(pieces[0], args, done))
  }

  /** The arguments left over. */
  function LeftOver(pieces: seq<Piece>, args: seq<Arg>): seq<Arg>
    requires Served(pieces, args)
  {
    if pieces == [] then args else LeftOver(pieces[1..], Rest(pieces[0], args))
  }

  function Formatted(fmt: string, args: seq<Arg>): Page
    requires Served(Pieces(fmt, 0), args)
  {
    Rendered(Pieces(fmt, 0), args, BLANK)
  }
}
