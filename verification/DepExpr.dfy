/**
  Dependency expressions of the configuration tool: tokens, grammar, the recursive-descent
  parser that evaluates while it parses, and the tree semantics it is proved against.
*/
module DepExpr {
  import opened Options

  /** A tristate value: 0 is n, 1 is m, 2 is y. */
  type Tri = t: int | 0 <= t <= 2

  const TRI_N: Tri := 0
  const TRI_M: Tri := 1
  const TRI_Y: Tri := 2

  // ------------------------------------------------------------------ syntax

  datatype Token = And | Or | Not | Open | Close | Name(name: string)

  /** Abstract syntax: what an expression means, without brackets. */
  datatype Expr =
    | Symbol(name: string)
    | Complement(e: Expr)
    | Both(l: Expr, r: Expr)
    | Either(l: Expr, r: Expr)

  /** Concrete syntax: derivation trees of the grammar, brackets included. */
  datatype Tree =
    | TName(name: string)
    | TParen(t: Tree)
    | TNot(t: Tree)
    | TAnd(l: Tree, r: Tree)
    | TOr(l: Tree, r: Tree)

  datatype Level = OrLevel | AndLevel | UnaryLevel

  /** The grammar: both binary operators associate to the left, && binds tighter than ||. */
  predicate Derives(level: Level, t: Tree)
    decreases t
  {
    match t
    case TName(_) => true
    case TParen(u) => Derives(OrLevel, u)
    case TNot(u) => Derives(UnaryLevel, u)
    case TAnd(l, r) => level != UnaryLevel && Derives(AndLevel, l) && Derives(UnaryLevel, r)
    case TOr(l, r) => level == OrLevel && Derives(OrLevel, l) && Derives(AndLevel, r)
  }

  /** The tokens a derivation tree spans. */
  function Yield(t: Tree): (ts: seq<Token>) {
    match t
    case TName(n) => [Name(n)]
    case TParen(u) => [Open] + Yield(u) + [Close]
    case TNot(u) => [Not] + Yield(u)
    case TAnd(l, r) => Yield(l) + [And] + Yield(r)
    case TOr(l, r) => Yield(l) + [Or] + Yield(r)
  }

  function Abstract(t: Tree): (e: Expr) {
    match t
    case TName(n) => Symbol(n)
    case TParen(u) => Abstract(u)
    case TNot(u) => Complement(Abstract(u))
    case TAnd(l, r) => Both(Abstract(l), Abstract(r))
    case TOr(l, r) => Either(Abstract(l), Abstract(r))
  }

  // --------------------------------------------------------------- semantics

  function Lookup(env: map<string, Tri>, symbol: string): Tri {
    if symbol in env then env[symbol] else TRI_N
  }

  function Min(a: Tri, b: Tri): Tri { if b < a then b else a }

  function Max(a: Tri, b: Tri): Tri { if b > a then b else a }

  function Flip(v: Tri): Tri {
    if v <= TRI_N then TRI_Y else if v >= TRI_Y then TRI_N else TRI_M
  }

  /** Three-valued meaning of an expression: complement, minimum and maximum. */
  function Eval(e: Expr, env: map<string, Tri>): Tri {
    match e
    case Symbol(n) => Lookup(env, n)
    case Complement(f) => Flip(Eval(f, env))
    case Both(l, r) => Min(Eval(l, env), Eval(r, env))
    case Either(l, r) => Max(Eval(l, env), Eval(r, env))
  }

  function Symbols(e: Expr): set<string> {
    match e
    case Symbol(n) => {n}
    case Complement(f) => Symbols(f)
    case Both(l, r) => Symbols(l) + Symbols(r)
    case Either(l, r) => Symbols(l) + Symbols(r)
  }

  predicate NegationFree(e: Expr) {
    match e
    case Symbol(_) => true
    case Complement(_) => false
    case Both(l, r) => NegationFree(l) && NegationFree(r)
    case Either(l, r) => NegationFree(l) && NegationFree(r)
  }

  lemma {:induction false} EvalReadsOnlySymbols(e: Expr, a: map<string, Tri>, b: map<string, Tri>)
    requires forall s | s in Symbols(e) :: Lookup(a, s) == Lookup(b, s)
    ensures Eval(e, a) == Eval(e, b)
  {
    match e
    case Symbol(_) =>
    case Complement(f) => EvalReadsOnlySymbols(f, a, b);
    case Both(l, r) => EvalReadsOnlySymbols(l, a, b); EvalReadsOnlySymbols(r, a, b);
    case Either(l, r) => EvalReadsOnlySymbols(l, a, b); EvalReadsOnlySymbols(r, a, b);
  }

  lemma {:induction false} EvalMonotone(e: Expr, a: map<string, Tri>, b: map<string, Tri>)
    requires NegationFree(e)
    requires forall s | s in Symbols(e) :: Lookup(a, s) <= Lookup(b, s)
    ensures Eval(e, a) <= Eval(e, b)
  {
    match e
    case Symbol(_) =>
    case Both(l, r) => EvalMonotone(l, a, b); EvalMonotone(r, a, b);
    case Either(l, r) => EvalMonotone(l, a, b); EvalMonotone(r, a, b);
  }

  // --------------------------------------------- recursive descent, on trees

  /** What a descent from position i found: the tree and the position after it. */
  type Found = Option<(Tree, nat)>

  predicate At(ts: seq<Token>, i: nat, t: Token) { i < |ts| && ts[i] == t }

  function Primary(ts: seq<Token>, i: nat): (r: Found)
    ensures r.Some? ==> i < r.value.1 <= |ts|
    decreases |ts| - i, 0
  {
    if At(ts, i, Open) then
      match Disjunction(ts, i + 1)
      case None => None
      case Some((t, j)) => if At(ts, j, Close) then Some((TParen(t), j + 1)) else None
    else if i < |ts| && ts[i].Name? then Some((TName(ts[i].name), i + 1))
    else None
  }

  function Unary(ts: seq<Token>, i: nat): (r: Found)
    ensures r.Some? ==> i < r.value.1 <= |ts|
    decreases |ts| - i, 1
  {
    if At(ts, i, Not) then
      match Unary(ts, i + 1)
      case None => None
      case Some((t, j)) => Some((TNot(t), j))
    else Primary(ts, i)
  }

  function MoreAnd(ts: seq<Token>, acc: Tree, i: nat): (r: Found)
    requires i <= |ts|
    ensures r.Some? ==> i <= r.value.1 <= |ts|
    decreases |ts| - i, 2
  {
    if At(ts, i, And) then
      match Unary(ts, i + 1)
      case None => None
      case Some((t, j)) => MoreAnd(ts, TAnd(acc, t), j)
    else Some((acc, i))
  }

  function Conjunction(ts: seq<Token>, i: nat): (r: Found)
    ensures r.Some? ==> i < r.value.1 <= |ts|
    decreases |ts| - i, 3
  {
    match Unary(ts, i)
    case None => None
    case Some((t, j)) => MoreAnd(ts, t, j)
  }

  function MoreOr(ts: seq<Token>, acc: Tree, i: nat): (r: Found)
    requires i <= |ts|
    ensures r.Some? ==> i <= r.value.1 <= |ts|
    decreases |ts| - i, 4
  {
    if At(ts, i, Or) then
      match Conjunction(ts, i + 1)
      case None => None
      case Some((t, j)) => MoreOr(ts, TOr(acc, t), j)
    else Some((acc, i))
  }

  function Disjunction(ts: seq<Token>, i: nat): (r: Found)
    ensures r.Some? ==> i < r.value.1 <= |ts|
    decreases |ts| - i, 5
  {
    match Conjunction(ts, i)
    case None => None
    case Some((t, j)) => MoreOr(ts, t, j)
  }

  /** A whole token list, no trailing tokens. */
  function Parse(ts: seq<Token>): (r: Option<Tree>) {
    match Disjunction(ts, 0)
    case None => None
    case Some((t, j)) => if j == |ts| then Some(t) else None
  }

  // -------------------------------------------------- soundness of the descent

  /** The tree t derives at this level and spans exactly ts[i..j]. */
  predicate Spans(ts: seq<Token>, level: Level, t: Tree, i: nat, j: nat) {
    i <= j <= |ts| && Derives(level, t) && Yield(t) == ts[i..j]
  }

  /** Two adjacent spans with one token between them make one span. */
  lemma Join(ts: seq<Token>, k: nat, i: nat, j: nat)
    requires k <= i < j <= |ts|
    ensures ts[k..j] == ts[k..i] + [ts[i]] + ts[i + 1..j]
  {
    assert ts[k..j] == ts[k..i] + ts[i..j];
    assert ts[i..j] == [ts[i]] + ts[i + 1..j];
  }

  /** The converse: a span known to be a + [x] + b comes apart at x. */
  lemma Cut(ts: seq<Token>, i: nat, j: nat, a: seq<Token>, x: Token, b: seq<Token>)
    requires i <= j <= |ts| && ts[i..j] == a + [x] + b
    ensures i + |a| < j && ts[i..i + |a|] == a && ts[i + |a|] == x && ts[i + |a| + 1..j] == b
  {
    var w := ts[i..j];
    assert |w| == j - i;
    assert ts[i + |a|] == w[|a|];
    assert ts[i..i + |a|] == w[..|a|];
    assert ts[i + |a| + 1..j] == w[|a| + 1..];
  }

  lemma {:induction false} PrimarySound(ts: seq<Token>, i: nat)
    ensures Primary(ts, i).Some? ==> Spans(ts, UnaryLevel, Primary(ts, i).value.0, i, Primary(ts, i).value.1)
    decreases |ts| - i, 0
  {
    if At(ts, i, Open) && Primary(ts, i).Some? {
      DisjunctionSound(ts, i + 1);
      var (t, j) := Disjunction(ts, i + 1).value;
      Join(ts, i, j, j + 1);
      Join(ts, i, i, j);
    }
  }

  lemma {:induction false} UnarySound(ts: seq<Token>, i: nat)
    ensures Unary(ts, i).Some? ==> Spans(ts, UnaryLevel, Unary(ts, i).value.0, i, Unary(ts, i).value.1)
    decreases |ts| - i, 1
  {
    if At(ts, i, Not) {
      UnarySound(ts, i + 1);
      if Unary(ts, i).Some? {
        var (t, j) := Unary(ts, i + 1).value;
        Join(ts, i, i, j);
      }
    } else {
      PrimarySound(ts, i);
    }
  }

  lemma {:induction false} MoreAndSound(ts: seq<Token>, acc: Tree, i: nat, k: nat)
    requires k <= i <= |ts| && Spans(ts, AndLevel, acc, k, i)
    ensures MoreAnd(ts, acc, i).Some? ==>
              Spans(ts, AndLevel, MoreAnd(ts, acc, i).value.0, k, MoreAnd(ts, acc, i).value.1)
    decreases |ts| - i, 2
  {
    if At(ts, i, And) {
      UnarySound(ts, i + 1);
      if Unary(ts, i + 1).Some? {
        var (t, j) := Unary(ts, i + 1).value;
        Join(ts, k, i, j);
        MoreAndSound(ts, TAnd(acc, t), j, k);
      }
    }
  }

  lemma {:induction false} UnaryIsAnd(t: Tree)
    requires Derives(UnaryLevel, t)
    ensures Derives(AndLevel, t)
  {}

  lemma {:induction false} AndIsOr(t: Tree)
    requires Derives(AndLevel, t)
    ensures Derives(OrLevel, t)
  {}

  lemma {:induction false} ConjunctionSound(ts: seq<Token>, i: nat)
    ensures Conjunction(ts, i).Some? ==>
              Spans(ts, AndLevel, Conjunction(ts, i).value.0, i, Conjunction(ts, i).value.1)
    decreases |ts| - i, 3
  {
    UnarySound(ts, i);
    if Unary(ts, i).Some? {
      var (t, j) := Unary(ts, i).value;
      UnaryIsAnd(t);
      MoreAndSound(ts, t, j, i);
    }
  }

  lemma {:induction false} MoreOrSound(ts: seq<Token>, acc: Tree, i: nat, k: nat)
    requires k <= i <= |ts| && Spans(ts, OrLevel, acc, k, i)
    ensures MoreOr(ts, acc, i).Some? ==>
              Spans(ts, OrLevel, MoreOr(ts, acc, i).value.0, k, MoreOr(ts, acc, i).value.1)
    decreases |ts| - i, 4
  {
    if At(ts, i, Or) {
      ConjunctionSound(ts, i + 1);
      if Conjunction(ts, i + 1).Some? {
        var (t, j) := Conjunction(ts, i + 1).value;
        Join(ts, k, i, j);
        MoreOrSound(ts, TOr(acc, t), j, k);
      }
    }
  }

  lemma {:induction false} DisjunctionSound(ts: seq<Token>, i: nat)
    ensures Disjunction(ts, i).Some? ==>
              Spans(ts, OrLevel, Disjunction(ts, i).value.0, i, Disjunction(ts, i).value.1)
    decreases |ts| - i, 5
  {
    ConjunctionSound(ts, i);
    if Conjunction(ts, i).Some? {
      var (t, j) := Conjunction(ts, i).value;
      AndIsOr(t);
      MoreOrSound(ts, t, j, i);
    }
  }

  // ----------------------------------------------- completeness of the descent

  lemma {:induction false} UnaryComplete(ts: seq<Token>, t: Tree, i: nat, j: nat)
    requires Spans(ts, UnaryLevel, t, i, j)
    ensures Unary(ts, i) == Some((t, j))
    decreases t, 0
  {
    hide Disjunction, Conjunction, MoreOr, MoreAnd;
    match t
    case TName(n) =>
      assert ts[i] == ts[i..j][0];
    case TParen(u) =>
      Cut(ts, i, j, [Open] + Yield(u), Close, []);
      Cut(ts, i, j - 1, [], Open, Yield(u));
      OrComplete(ts, u, i + 1, j - 1);
    case TNot(u) =>
      Cut(ts, i, j, [], Not, Yield(u));
      UnaryComplete(ts, u, i + 1, j);
  }

  /** A conjunction is read operand by operand, whatever follows it. */
  lemma {:induction false} AndComplete(ts: seq<Token>, t: Tree, i: nat, j: nat)
    requires Spans(ts, AndLevel, t, i, j)
    ensures Conjunction(ts, i) == MoreAnd(ts, t, j)
    decreases t, 1
  {
    if t.TAnd? {
      var m := i + |Yield(t.l)|;
      Cut(ts, i, j, Yield(t.l), And, Yield(t.r));
      AndComplete(ts, t.l, i, m);
      UnaryComplete(ts, t.r, m + 1, j);
    } else {
      UnaryComplete(ts, t, i, j);
    }
  }

  lemma {:induction false} OrChain(ts: seq<Token>, t: Tree, i: nat, j: nat)
    requires Spans(ts, OrLevel, t, i, j) && !At(ts, j, And)
    ensures Disjunction(ts, i) == MoreOr(ts, t, j)
    decreases t, 2
  {
    if t.TOr? {
      var m := i + |Yield(t.l)|;
      Cut(ts, i, j, Yield(t.l), Or, Yield(t.r));
      OrChain(ts, t.l, i, m);
      AndComplete(ts, t.r, m + 1, j);
    } else {
      AndComplete(ts, t, i, j);
    }
  }

  lemma {:induction false} OrComplete(ts: seq<Token>, t: Tree, i: nat, j: nat)
    requires Spans(ts, OrLevel, t, i, j) && !At(ts, j, And) && !At(ts, j, Or)
    ensures Disjunction(ts, i) == Some((t, j))
    decreases t, 3
  {
    OrChain(ts, t, i, j);
  }

  /**
    Main result on the grammar: the descent accepts a token list exactly when the list is the
    yield of a derivation tree, and that tree is the one it builds (so the grammar is unambiguous).
  */
  lemma ParseIffDerives(ts: seq<Token>, t: Tree)
    ensures Parse(ts) == Some(t) <==> Derives(OrLevel, t) && Yield(t) == ts
  {
    if Parse(ts) == Some(t) {
      DisjunctionSound(ts, 0);
      assert ts[0..|ts|] == ts;
    }
    if Derives(OrLevel, t) && Yield(t) == ts {
      assert ts[0..|ts|] == ts;
      OrComplete(ts, t, 0, |ts|);
    }
  }

  // ------------------------------------------- printing with fewest brackets

  function Print(level: Level, e: Expr): (t: Tree)
    decreases e
  {
    match e
    case Symbol(n) => TName(n)
    case Complement(f) => TNot(Print(UnaryLevel, f))
    case Both(l, r) =>
      var t := TAnd(Print(AndLevel, l), Print(UnaryLevel, r));
      if level == UnaryLevel then TParen(t) else t
    case Either(l, r) =>
      var t := TOr(Print(OrLevel, l), Print(AndLevel, r));
      if level == OrLevel then t else TParen(t)
  }

  function Brackets(t: Tree): nat {
    match t
    case TName(_) => 0
    case TParen(u) => 1 + Brackets(u)
    case TNot(u) => Brackets(u)
    case TAnd(l, r) => Brackets(l) + Brackets(r)
    case TOr(l, r) => Brackets(l) + Brackets(r)
  }

  lemma {:induction false} PrintDerives(level: Level, e: Expr)
    ensures Derives(level, Print(level, e))
    ensures Abstract(Print(level, e)) == e
    decreases e
  {
    match e
    case Symbol(_) =>
    case Complement(f) => PrintDerives(UnaryLevel, f);
    case Both(l, r) => PrintDerives(AndLevel, l); PrintDerives(UnaryLevel, r);
    case Either(l, r) => PrintDerives(OrLevel, l); PrintDerives(AndLevel, r);
  }

  /** Printing and parsing back gives the same expression. */
  lemma PrintParses(e: Expr)
    ensures Parse(Yield(Print(OrLevel, e))) == Some(Print(OrLevel, e))
    ensures Abstract(Parse(Yield(Print(OrLevel, e))).value) == e
  {
    PrintDerives(OrLevel, e);
    ParseIffDerives(Yield(Print(OrLevel, e)), Print(OrLevel, e));
  }

  /** No token list that parses to the same expression has fewer brackets. */
  lemma {:induction false} PrintIsMinimal(level: Level, t: Tree)
    requires Derives(level, t)
    ensures Brackets(Print(level, Abstract(t))) <= Brackets(t)
    decreases t
  {
    match t
    case TName(_) =>
    case TParen(u) =>
      PrintIsMinimal(OrLevel, u);
      LevelsDifferByOne(level, Abstract(u));
    case TNot(u) => PrintIsMinimal(UnaryLevel, u);
    case TAnd(l, r) => PrintIsMinimal(AndLevel, l); PrintIsMinimal(UnaryLevel, r);
    case TOr(l, r) => PrintIsMinimal(OrLevel, l); PrintIsMinimal(AndLevel, r);
  }

  lemma {:induction false} LevelsDifferByOne(level: Level, e: Expr)
    ensures Brackets(Print(level, e)) <= 1 + Brackets(Print(OrLevel, e))
  {
    match e
    case Symbol(_) =>
    case Complement(_) =>
    case Both(_, _) =>
    case Either(_, _) =>
  }

  // ------------------------------------------------------------ reading text

  /** White space as str.strip and the pattern class \s see it. */
  predicate IsSpace(c: char) {
    var n := c as int;
    9 <= n <= 13 || 28 <= n <= 32 || n == 0x85 || n == 0xA0 || n == 0x1680 || 0x2000 <= n <= 0x200A ||
    n == 0x2028 || n == 0x2029 || n == 0x202F || n == 0x205F || n == 0x3000
  }

  predicate IsNameStart(c: char) { 'A' <= c <= 'Z' || 'a' <= c <= 'z' || c == '_' }

  predicate IsNameChar(c: char) { IsNameStart(c) || '0' <= c <= '9' }

  predicate IsIdentifier(s: string) {
    |s| > 0 && IsNameStart(s[0]) && forall k | 0 <= k < |s| :: IsNameChar(s[k])
  }

  function StripLeft(s: string): string
    decreases |s|
  {
    if |s| > 0 && IsSpace(s[0]) then StripLeft(s[1..]) else s
  }

  function StripRight(s: string): (r: string)
    ensures |r| <= |s|
  {
    if |s| > 0 && IsSpace(s[|s| - 1]) then StripRight(s[..|s| - 1]) else s
  }

  function Strip(s: string): string { StripRight(StripLeft(s)) }

  function NameEnd(s: string, i: nat): (j: nat)
    requires i <= |s|
    ensures i <= j <= |s|
    decreases |s| - i
  {
    if i < |s| && IsNameChar(s[i]) then NameEnd(s, i + 1) else i
  }

  function SpaceEnd(s: string, i: nat): (j: nat)
    requires i <= |s|
    ensures i <= j <= |s|
    decreases |s| - i
  {
    if i < |s| && IsSpace(s[i]) then SpaceEnd(s, i + 1) else i
  }

  /** One match of the token pattern at position i: the token and the position after it. */
  function TokenAt(s: string, i: nat): (r: Option<(Token, nat)>)
    requires i <= |s|
    ensures r.Some? ==> i < r.value.1 <= |s|
  {
    var p := SpaceEnd(s, i);
    if p + 1 < |s| && s[p] == '&' && s[p + 1] == '&' then Some((And, p + 2))
    else if p + 1 < |s| && s[p] == '|' && s[p + 1] == '|' then Some((Or, p + 2))
    else if p < |s| && s[p] == '!' then Some((Not, p + 1))
    else if p < |s| && s[p] == '(' then Some((Open, p + 1))
    else if p < |s| && s[p] == ')' then Some((Close, p + 1))
    else if p < |s| && IsNameStart(s[p]) then Some((Name(s[p..NameEnd(s, p + 1)]), NameEnd(s, p + 1)))
    else None
  }

  function Tokens(s: string, i: nat): (r: Option<seq<Token>>)
    requires i <= |s|
    decreases |s| - i
  {
    if i == |s| then Some([])
    else match TokenAt(s, i)
         case None => None
         case Some((t, j)) =>
           match Tokens(s, j)
           case None => None
           case Some(rest) => Some([t] + rest)
  }

  /** The tree a dependency text stands for; None where reading it raises. */
  function Reads(text: string): (r: Option<Tree>)
  {
    match Tokens(Strip(text), 0)
    case None => None
    case Some(ts) => Parse(ts)
  }

  /** Meaning of a dependency text: blank text is y, text that cannot be read has no value. */
  function Meaning(text: string, env: map<string, Tri>): (r: Option<Tri>)
  {
    if Strip(text) == "" then Some(TRI_Y)
    else match Reads(text)
         case None => None
         case Some(t) => Some(Eval(Abstract(t), env))
  }

  // ----------------------------------------------------- writing text, and back

  function Spell(t: Token): (w: string)
    ensures !t.Name? ==> w != "" && !IsSpace(w[0]) && !IsNameChar(w[0])
  {
    match t
    case And => "&&"
    case Or => "||"
    case Not => "!"
    case Open => "("
    case Close => ")"
    case Name(n) => n
  }

  /** Tokens written out with any white space in front of each of them. */
  function Layout(gaps: seq<string>, ts: seq<Token>): string
    requires |gaps| == |ts|
  {
    if ts == [] then "" else gaps[0] + (Spell(ts[0]) + Layout(gaps[1..], ts[1..]))
  }

  predicate Blank(s: string) { forall k | 0 <= k < |s| :: IsSpace(s[k]) }

  /** Names are identifiers, gaps are white space, and two names in a row do not touch. */
  predicate Legible(gaps: seq<string>, ts: seq<Token>) {
    && |gaps| == |ts|
    && (forall k | 0 <= k < |ts| :: Blank(gaps[k]))
    && (forall k | 0 <= k < |ts| && ts[k].Name? :: IsIdentifier(ts[k].name))
    && (forall k | 0 < k < |ts| && ts[k - 1].Name? && ts[k].Name? :: gaps[k] != "")
  }

  lemma {:induction false} NameEndSkips(s: string, i: nat, j: nat)
    requires i <= j <= |s|
    requires forall k | i <= k < j :: IsNameChar(s[k])
    requires j < |s| ==> !IsNameChar(s[j])
    ensures NameEnd(s, i) == j
    decreases j - i
  {
    if i < j { NameEndSkips(s, i + 1, j); }
  }

  lemma {:induction false} SpaceEndSkips(s: string, i: nat, j: nat)
    requires i <= j <= |s|
    requires forall k | i <= k < j :: IsSpace(s[k])
    requires j < |s| ==> !IsSpace(s[j])
    ensures SpaceEnd(s, i) == j
    decreases j - i
  {
    if i < j { SpaceEndSkips(s, i + 1, j); }
  }

  /** From position i on, s reads a and then b. */
  lemma DropFront(s: string, i: nat, a: string, b: string)
    requires i <= |s| && s[i..] == a + b
    ensures i + |a| <= |s| && s[i + |a|..] == b
    ensures forall k | i <= k < i + |a| :: s[k] == a[k - i]
    ensures s[i..i + |a|] == a
  {
    var u := s[i..];
    assert |u| == |s| - i;
    assert s[i + |a|..] == u[|a|..] == b;
    assert forall k | i <= k < i + |a| :: s[k] == u[k - i];
  }

  /** One written token is read back, with the white space in front of it. */
  lemma TokenAtReads(s: string, i: nat, gap: string, t: Token, after: string)
    requires i <= |s| && s[i..] == gap + (Spell(t) + after)
    requires Blank(gap) && (t.Name? ==> IsIdentifier(t.name))
    requires t.Name? && after != "" ==> !IsNameChar(after[0])
    ensures TokenAt(s, i) == Some((t, i + |gap| + |Spell(t)|))
  {
    var w, p := Spell(t), i + |gap|;
    DropFront(s, i, gap, w + after);
    DropFront(s, p, w, after);
    assert s[p] == w[0];
    SpaceEndSkips(s, i, p);
    hide SpaceEnd;
    if t.Name? {
      if after != "" { assert s[p + |w|] == s[p + |w|..][0]; }
      NameEndSkips(s, p + 1, p + |w|);
    }
  }

  /** A legible layout never continues a name that ends just before it. */
  lemma LayoutDoesNotExtend(gaps: seq<string>, ts: seq<Token>)
    requires Legible(gaps, ts) && ts != [] && ts[0].Name? && Layout(gaps[1..], ts[1..]) != ""
    ensures !IsNameChar(Layout(gaps[1..], ts[1..])[0])
  {
    if |ts| > 1 {
      var g, w := gaps[1], Spell(ts[1]);
      assert gaps[1..][0] == g && ts[1..][0] == ts[1];
      assert Layout(gaps[1..], ts[1..])[0] == if g != "" then g[0] else w[0];
      if g != "" { assert IsSpace(g[0]); }
    }
  }

  lemma LegibleTail(gaps: seq<string>, ts: seq<Token>)
    requires Legible(gaps, ts) && ts != []
    ensures Legible(gaps[1..], ts[1..])
  {
    forall k | 0 < k < |ts| - 1 && ts[1..][k - 1].Name? && ts[1..][k].Name? ensures gaps[1..][k] != "" {
      assert ts[k].Name? && ts[k + 1].Name?;
      assert ts[(k + 1) - 1].Name?;
    }
  }

  lemma FirstTokenReads(s: string, i: nat, gap: string, t: Token, after: string) returns (j: nat)
    requires i <= |s| && s[i..] == gap + (Spell(t) + after)
    requires Blank(gap) && (t.Name? ==> IsIdentifier(t.name))
    requires t.Name? && after != "" ==> !IsNameChar(after[0])
    ensures j <= |s| && TokenAt(s, i) == Some((t, j)) && s[j..] == after
  {
    hide TokenAt, Spell, Blank, IsIdentifier, IsNameChar;
    TokenAtReads(s, i, gap, t, after);
    DropFront(s, i, gap, Spell(t) + after);
    DropFront(s, i + |gap|, Spell(t), after);
    j := i + |gap| + |Spell(t)|;
  }

  lemma TokensNext(s: string, i: nat, j: nat, t: Token, rest: seq<Token>)
    requires i < |s| && TokenAt(s, i) == Some((t, j)) && j <= |s| && Tokens(s, j) == Some(rest)
    ensures Tokens(s, i) == Some([t] + rest)
  {
    hide TokenAt;
  }

  lemma {:induction false} LayoutReads(s: string, i: nat, gaps: seq<string>, ts: seq<Token>)
    requires Legible(gaps, ts) && i <= |s| && s[i..] == Layout(gaps, ts)
    ensures Tokens(s, i) == Some(ts)
    decreases |ts|
  {
    if ts != [] {
      var after := Layout(gaps[1..], ts[1..]);
      if ts[0].Name? && after != "" { LayoutDoesNotExtend(gaps, ts); }
      LegibleTail(gaps, ts);
      assert Spell(ts[0]) != "" && s[i..] != "" by { SpellNotEmpty(gaps, ts); }
      var j := FirstTokenReads(s, i, gaps[0], ts[0], after);
      hide TokenAt, Spell, Legible, Layout, Tokens, Blank, IsIdentifier, IsNameChar;
      LayoutReads(s, j, gaps[1..], ts[1..]);
      TokensNext(s, i, j, ts[0], ts[1..]);
      assert [ts[0]] + ts[1..] == ts;
    } else {
      assert |s| - i == |s[i..]| == 0;
    }
  }

  lemma SpellNotEmpty(gaps: seq<string>, ts: seq<Token>)
    requires Legible(gaps, ts) && ts != []
    ensures Spell(ts[0]) != "" && Layout(gaps, ts) != ""
  {
  }

  lemma {:induction false} StripLeftDrops(lead: string, s: string)
    requires Blank(lead) && s != "" && !IsSpace(s[0])
    ensures StripLeft(lead + s) == s
    decreases |lead|
  {
    if lead != "" {
      assert (lead + s)[1..] == lead[1..] + s;
      StripLeftDrops(lead[1..], s);
    } else {
      assert lead + s == s;
    }
  }

  lemma {:induction false} StripRightDrops(s: string, trail: string)
    requires Blank(trail) && s != "" && !IsSpace(s[|s| - 1])
    ensures StripRight(s + trail) == s
    decreases |trail|
  {
    if trail != "" {
      var t := s + trail;
      assert t[..|t| - 1] == s + trail[..|trail| - 1];
      StripRightDrops(s, trail[..|trail| - 1]);
    } else {
      assert s + trail == s;
    }
  }

  lemma {:induction false} LayoutEnds(gaps: seq<string>, ts: seq<Token>)
    requires Legible(gaps, ts) && ts != []
    ensures var s := Layout(gaps, ts);
            s != "" && !IsSpace(s[|s| - 1]) && (gaps[0] == "" ==> !IsSpace(s[0]))
    decreases |ts|
  {
    var w := Spell(ts[0]);
    var rest := Layout(gaps[1..], ts[1..]);
    assert Layout(gaps, ts) == gaps[0] + (w + rest);
    if gaps[0] == "" { assert Layout(gaps, ts)[0] == w[0]; }
    if |ts| > 1 { LayoutEnds(gaps[1..], ts[1..]); }
  }

  /**
    Main result on texts: print an expression with fewest brackets, lay the tokens out with any
    white space around and between them, and the tool computes the three-valued meaning.
  */
  lemma TextRoundTrip(e: Expr, gaps: seq<string>, lead: string, trail: string, env: map<string, Tri>)
    requires Legible(gaps, Yield(Print(OrLevel, e))) && gaps[0] == "" && Blank(lead) && Blank(trail)
    ensures Meaning(lead + Layout(gaps, Yield(Print(OrLevel, e))) + trail, env) == Some(Eval(e, env))
  {
    var ts := Yield(Print(OrLevel, e));
    var s := Layout(gaps, ts);
    LayoutEnds(gaps, ts);
    assert lead + s + trail == lead + (s + trail);
    StripLeftDrops(lead, s + trail);
    StripRightDrops(s, trail);
    LayoutReads(s, 0, gaps, ts);
    PrintParses(e);
  }

  // --------------------------------------------------- the program's own form

  /** The scanning loop: tokens are appended until the text is used up or nothing matches. */
  method Tokenize(text: string) returns (r: Option<seq<Token>>)
    ensures r == Tokens(text, 0)
  {
    var tokens: seq<Token> := [];
    var pos := 0;
    assert Tokens(text, 0).Some? ==> [] + Tokens(text, 0).value == Tokens(text, 0).value;
    while pos < |text|
      invariant pos <= |text|
      invariant Tokens(text, 0) == match Tokens(text, pos) case None => None case Some(rest) => Some(tokens + rest)
    {
      var hit := TokenAt(text, pos);
      if hit.None? {
        return None;
      }
      ghost var old_tokens := tokens;
      tokens := tokens + [hit.value.0];
      if Tokens(text, hit.value.1).Some? {
        assert old_tokens + ([hit.value.0] + Tokens(text, hit.value.1).value)
            == tokens + Tokens(text, hit.value.1).value;
      }
      pos := hit.value.1;
    }
    assert tokens + [] == tokens;
    r := Some(tokens);
  }

  /** The parser: one shared token index, and a value computed while reading. */
  class Parser {
    const tokens: seq<Token>
    const env: map<string, Tri>
    var index: nat

    constructor (tokens: seq<Token>, env: map<string, Tri>)
      ensures this.tokens == tokens && this.env == env && index == 0
    {
      this.tokens, this.env, index := tokens, env, 0;
    }

    /** What a method that read a tree from position i leaves behind. */
    ghost predicate Agrees(found: Found, value: Option<Tri>)
      reads this
    {
      match found
      case None => value == None
      case Some((t, j)) => value == Some(Eval(Abstract(t), env)) && index == j
    }

    predicate Peek(t: Token)
      reads this
    {
      At(tokens, index, t)
    }

    method ParsePrimary() returns (value: Option<Tri>)
      requires index <= |tokens|
      modifies this
      ensures Agrees(Primary(tokens, old(index)), value)
      decreases |tokens| - index, 0
    {
      if Peek(Open) {
        index := index + 1;
        value := ParseOr();
        if value.Some? {
          if Peek(Close) {
            index := index + 1;
          } else {
            value := None;
          }
        }
      } else if index < |tokens| && tokens[index].Name? {
        value := Some(Lookup(env, tokens[index].name));
        index := index + 1;
      } else {
        value := None;
      }
    }

    method ParseUnary() returns (value: Option<Tri>)
      requires index <= |tokens|
      modifies this
      ensures Agrees(Unary(tokens, old(index)), value)
      decreases |tokens| - index, 1
    {
      if Peek(Not) {
        index := index + 1;
        value := ParseUnary();
        if value.Some? {
          value := Some(Flip(value.value));
        }
      } else {
        value := ParsePrimary();
      }
    }

    method ParseAnd() returns (value: Option<Tri>)
      requires index <= |tokens|
      modifies this
      ensures Agrees(Conjunction(tokens, old(index)), value)
      decreases |tokens| - index, 2
    {
      value := ParseUnary();
      if value.None? {
        return;
      }
      ghost var acc := Unary(tokens, old(index)).value.0;
      while Peek(And)
        invariant old(index) < index <= |tokens|
        invariant value == Some(Eval(Abstract(acc), env))
        invariant Conjunction(tokens, old(index)) == MoreAnd(tokens, acc, index)
        decreases |tokens| - index
      {
        index := index + 1;
        ghost var right := Unary(tokens, index);
        var v := ParseUnary();
        if v.None? {
          return None;
        }
        value := Some(Min(value.value, v.value));
        acc := TAnd(acc, right.value.0);
      }
    }

    method ParseOr() returns (value: Option<Tri>)
      requires index <= |tokens|
      modifies this
      ensures Agrees(Disjunction(tokens, old(index)), value)
      decreases |tokens| - index, 3
    {
      value := ParseAnd();
      if value.None? {
        return;
      }
      ghost var acc := Conjunction(tokens, old(index)).value.0;
      while Peek(Or)
        invariant old(index) < index <= |tokens|
        invariant value == Some(Eval(Abstract(acc), env))
        invariant Disjunction(tokens, old(index)) == MoreOr(tokens, acc, index)
        decreases |tokens| - index
      {
        index := index + 1;
        ghost var right := Conjunction(tokens, index);
        var v := ParseAnd();
        if v.None? {
          return None;
        }
        value := Some(Max(value.value, v.value));
        acc := TOr(acc, right.value.0);
      }
    }
  }

  /** Evaluating a dependency text; None where the program raises. */
  method EvalDepExpr(expr: string, env: map<string, Tri>) returns (r: Option<Tri>)
    ensures r == Meaning(expr, env)
  {
    var text := Strip(expr);
    if text == "" {
      return Some(TRI_Y);
    }
    var tokens := Tokenize(text);
    if tokens.None? {
      return None;
    }
    var parser := new Parser(tokens.value, env);
    r := parser.ParseOr();
    if r.Some? && parser.index != |tokens.value| {
      r := None;
    }
  }
}
