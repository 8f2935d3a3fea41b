/**
  Iterating a function on configurations: it converges if every value is computed from values of
  lower rank, and if it is monotone and its first step goes one way.
*/
module Lattice {
  import opened DepExpr
  import opened Iteration

  type Config = map<string, Tri>

  // ------------------------------------------------------------- set arithmetic

  lemma {:induction false} SubsetSize<T>(a: set<T>, b: set<T>)
    requires a <= b
    ensures |a| <= |b|
    decreases |a|
  {
    if a != {} {
      var x :| x in a;
      SubsetSize(a - {x}, b - {x});
    }
  }

  lemma SameValues(a: Config, b: Config)
    requires a.Keys == b.Keys && forall k | k in a :: a[k] == b[k]
    ensures a == b
  {}

  // -------------------------------------------------------------------- by rank

  /** Two configurations give every key of rank below n the same value. */
  ghost predicate AgreeBelow(rank: map<string, nat>, a: Config, b: Config, n: nat) {
    && a.Keys == rank.Keys && b.Keys == rank.Keys
    && forall k | k in rank && rank[k] < n :: a[k] == b[k]
  }

  /** Every value is computed from values of lower rank. */
  ghost predicate Stratified(f: Config -> Config, rank: map<string, nat>) {
    forall a, b, n: nat | AgreeBelow(rank, a, b, n) :: AgreeBelow(rank, f(a), f(b), n + 1)
  }

  /** Wherever the iteration starts, after n steps the keys of rank below n are settled. */
  lemma {:induction false} RanksSettle(f: Config -> Config, rank: map<string, nat>, a: Config, b: Config, n: nat)
    requires Stratified(f, rank) && a.Keys == rank.Keys && b.Keys == rank.Keys
    ensures AgreeBelow(rank, Iterate(f, a, n), Iterate(f, b, n), n)
  {
    if n > 0 { RanksSettle(f, rank, a, b, n - 1); }
  }

  /** n steps forget the start when all ranks are below n. */
  lemma ForgetsStart(f: Config -> Config, rank: map<string, nat>, a: Config, b: Config, n: nat)
    requires Stratified(f, rank) && a.Keys == rank.Keys && b.Keys == rank.Keys
    requires forall k | k in rank :: rank[k] < n
    ensures Iterate(f, a, n) == Iterate(f, b, n)
  {
    RanksSettle(f, rank, a, b, n);
  }

  /** Step n is at rest, and nothing else is. */
  lemma StratifiedRests(f: Config -> Config, rank: map<string, nat>, c: Config, n: nat)
    requires Stratified(f, rank) && c.Keys == rank.Keys && forall k | k in rank :: rank[k] < n
    ensures AtRest(f, Iterate(f, c, n))
    ensures forall x: Config | x.Keys == rank.Keys && AtRest(f, x) :: x == Iterate(f, c, n)
  {
    assert AgreeBelow(rank, f(c), f(c), 1) by { assert AgreeBelow(rank, c, c, 0); }
    ForgetsStart(f, rank, c, f(c), n);
    ShiftStep(f, c, n);
    forall x: Config | x.Keys == rank.Keys && AtRest(f, x) ensures x == Iterate(f, c, n) {
      ForgetsStart(f, rank, c, x, n);
      Stays(f, x, n);
    }
  }

  // ----------------------------------------------------------------- by monotony

  predicate Below(a: Config, b: Config) {
    a.Keys == b.Keys && forall k | k in a :: a[k] <= b[k]
  }

  ghost predicate Monotone(f: Config -> Config, keys: set<string>) {
    && (forall c: Config | c.Keys == keys :: f(c).Keys == keys)
    && (forall a: Config, b: Config | a.Keys == keys && Below(a, b) :: Below(f(a), f(b)))
  }

  lemma {:induction false} IterateMonotone(f: Config -> Config, keys: set<string>, a: Config, b: Config, n: nat)
    requires Monotone(f, keys) && a.Keys == keys && Below(a, b)
    ensures Below(Iterate(f, a, n), Iterate(f, b, n)) && Iterate(f, a, n).Keys == keys
  {
    if n > 0 { IterateMonotone(f, keys, a, b, n - 1); }
  }

  /** The sum of all values. */
  ghost function Weight(c: Config): nat {
    |set k | k in c && c[k] >= TRI_M| + |set k | k in c && c[k] >= TRI_Y|
  }

  lemma WeightBound(c: Config)
    ensures Weight(c) <= 2 * |c.Keys|
  {
    SubsetSize((set k | k in c && c[k] >= TRI_M), c.Keys);
    SubsetSize((set k | k in c && c[k] >= TRI_Y), c.Keys);
  }

  lemma WeightStrict(a: Config, b: Config)
    requires Below(a, b) && a != b
    ensures Weight(a) < Weight(b)
  {
    var am := set k | k in a && a[k] >= TRI_M;
    var ay := set k | k in a && a[k] >= TRI_Y;
    var bm := set k | k in b && b[k] >= TRI_M;
    var bigY := set k | k in b && b[k] >= TRI_Y;
    assert am <= bm && ay <= bigY;
    var k :| k in a && a[k] != b[k];
    SubsetSize(am, bm);
    SubsetSize(ay, bigY);
    if a[k] == TRI_N {
      assert k in bm - am;
      SubsetSize(am + {k}, bm);
    } else {
      assert k in bigY - ay;
      SubsetSize(ay + {k}, bigY);
    }
  }

  /** Going down from c, some step changes nothing: every other one uses up weight. */
  lemma {:induction false} DescentRests(f: Config -> Config, keys: set<string>, c: Config) returns (m: nat)
    requires Monotone(f, keys) && c.Keys == keys && Below(f(c), c)
    ensures m <= Weight(c) && AtRest(f, Iterate(f, c, m))
    decreases Weight(c)
  {
    if f(c) == c {
      m := 0;
    } else {
      WeightStrict(f(c), c);
      m := DescentRests(f, keys, f(c));
      ShiftStep(f, c, m);
      m := m + 1;
    }
  }

  lemma {:induction false} AscentRests(f: Config -> Config, keys: set<string>, c: Config) returns (m: nat)
    requires Monotone(f, keys) && c.Keys == keys && Below(c, f(c))
    ensures m + Weight(c) <= 2 * |keys| && AtRest(f, Iterate(f, c, m))
    decreases 2 * |keys| - Weight(c)
  {
    WeightBound(c);
    if f(c) == c {
      m := 0;
    } else {
      WeightStrict(c, f(c));
      WeightBound(f(c));
      m := AscentRests(f, keys, f(c));
      ShiftStep(f, c, m);
      m := m + 1;
    }
  }

  lemma {:induction false} AscentFromStart(f: Config -> Config, keys: set<string>, c: Config, n: nat)
    requires Monotone(f, keys) && c.Keys == keys && Below(c, f(c))
    ensures Below(c, Iterate(f, c, n))
  {
    if n > 0 {
      AscentFromStart(f, keys, c, n - 1);
      IterateMonotone(f, keys, c, Iterate(f, c, n - 1), 1);
    }
  }

  /** A value at rest below (above) the start stays below (above) every step. */
  lemma RestBelowStays(f: Config -> Config, keys: set<string>, x: Config, c: Config, n: nat)
    requires Monotone(f, keys) && x.Keys == keys && AtRest(f, x) && Below(x, c)
    ensures Below(x, Iterate(f, c, n))
  {
    IterateMonotone(f, keys, x, c, n);
    Stays(f, x, n);
  }

  lemma RestAboveStays(f: Config -> Config, keys: set<string>, x: Config, c: Config, n: nat)
    requires Monotone(f, keys) && c.Keys == keys && AtRest(f, x) && Below(c, x)
    ensures Below(Iterate(f, c, n), x)
  {
    IterateMonotone(f, keys, c, x, n);
    Stays(f, x, n);
  }
}
