/** Repeating a function until it stops changing its argument, or a limit is reached. */
module Iteration {
  function Iterate<T>(f: T -> T, c: T, n: nat): T {
    if n == 0 then c else f(Iterate(f, c, n - 1))
  }

  predicate AtRest<T(==)>(f: T -> T, c: T) { f(c) == c }

  /** The step, counted from 1, after which a loop that tests `quiet` before each step gives up. */
  predicate StopsAt<T>(f: T -> T, quiet: T -> bool, c: T, limit: nat, steps: nat) {
    && 1 <= steps <= limit
    && (quiet(Iterate(f, c, steps - 1)) || steps == limit)
    && (forall k | 0 <= k < steps - 1 :: !quiet(Iterate(f, c, k)))
  }

  lemma {:induction false} Splits<T>(f: T -> T, c: T, m: nat, n: nat)
    ensures Iterate(f, c, m + n) == Iterate(f, Iterate(f, c, m), n)
  {
    if n > 0 { Splits(f, c, m, n - 1); }
  }

  lemma ShiftStep<T>(f: T -> T, c: T, n: nat)
    ensures Iterate(f, f(c), n) == f(Iterate(f, c, n))
  {
    Splits(f, c, 1, n);
    assert Iterate(f, c, 1) == f(Iterate(f, c, 0));
  }

  lemma {:induction false} Stays<T>(f: T -> T, c: T, n: nat)
    requires AtRest(f, c)
    ensures Iterate(f, c, n) == c
  {
    if n > 0 { Stays(f, c, n - 1); }
  }

  /** All the steps from a resting one on give the same value. */
  lemma SameRest<T>(f: T -> T, c: T, k: nat, m: nat, n: nat)
    requires k <= m && k <= n && AtRest(f, Iterate(f, c, k))
    ensures Iterate(f, c, m) == Iterate(f, c, n)
  {
    Splits(f, c, k, m - k);
    Splits(f, c, k, n - k);
    Stays(f, Iterate(f, c, k), m - k);
    Stays(f, Iterate(f, c, k), n - k);
  }

  /** If step m rests, within the limit, then the loop ends with that value. */
  lemma StopsWithRest<T>(f: T -> T, quiet: T -> bool, c: T, limit: nat, steps: nat, m: nat)
    requires StopsAt(f, quiet, c, limit, steps)
    requires m < limit && AtRest(f, Iterate(f, c, m))
    requires quiet(Iterate(f, c, steps - 1)) ==> AtRest(f, Iterate(f, c, steps - 1))
    ensures Iterate(f, c, steps) == Iterate(f, c, m)
    ensures AtRest(f, Iterate(f, c, steps))
    ensures quiet(Iterate(f, c, m)) ==> steps <= m + 1
  {
    SameRest(f, c, if steps <= m then steps - 1 else m, steps, m);
  }

  lemma {:induction false} TwoCycle<T>(f: T -> T, x: T, y: T, n: nat)
    requires f(x) == y && f(y) == x
    ensures Iterate(f, x, n) == if n % 2 == 0 then x else y
  {
    if n > 0 { TwoCycle(f, x, y, n - 1); }
  }

  /** A loop that always changes something between two values runs to its limit. */
  lemma TwoCycleRunsOut<T>(f: T -> T, quiet: T -> bool, x: T, y: T, limit: nat, steps: nat)
    requires f(x) == y && f(y) == x && !quiet(x) && !quiet(y)
    requires StopsAt(f, quiet, x, limit, steps)
    ensures steps == limit && Iterate(f, x, steps) == if limit % 2 == 0 then x else y
  {
    hide Iterate;
    TwoCycle(f, x, y, steps - 1);
    TwoCycle(f, x, y, steps);
    var last := Iterate(f, x, steps - 1);
    assert last == x || last == y;
    assert !quiet(last);
  }
}
