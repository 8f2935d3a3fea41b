/** The solver as the program runs it: tables filled by loops, rounds until nothing changes. */
module Evaluate {
  import opened Options
  import opened DepExpr
  import opened Iteration
  import opened Lattice
  import opened Solver

  lemma KeysPrefix(fs: seq<Feature>, i: nat)
    requires i < |fs|
    ensures Keys(fs[..i + 1]) == Keys(fs[..i]) + {fs[i].key}
  {
    var a, b := fs[..i], fs[..i + 1];
    forall k | k in Keys(a) ensures k in Keys(b) {
      var j :| 0 <= j < |a| && a[j].key == k;
      assert b[j].key == k;
    }
    assert b[i].key == fs[i].key;
    forall k | k in Keys(b) ensures k in Keys(a) + {fs[i].key} {
      var j :| 0 <= j < |b| && b[j].key == k;
      if j < i { assert a[j].key == k; }
    }
  }

  /** The loops assign table[item.key] in list order, so the last feature of a key decides. */
  ghost predicate Fills<V>(fs: seq<Feature>, table: map<string, V>, value: Feature -> V) {
    && table.Keys == Keys(fs)
    && forall k | k in table :: table[k] == value(Owner(fs, k))
  }

  lemma FillsOneMore<V>(fs: seq<Feature>, i: nat, table: map<string, V>, value: Feature -> V)
    requires i < |fs| && Fills(fs[..i], table, value)
    ensures Fills(fs[..i + 1], table[fs[i].key := value(fs[i])], value)
  {
    KeysPrefix(fs, i);
    var table' := table[fs[i].key := value(fs[i])];
    forall k | k in table' ensures table'[k] == value(Owner(fs[..i + 1], k)) { OwnerPrefix(fs, i, k); }
  }

  method StartValues(fs: seq<Feature>, requested: map<string, int>) returns (current: Config)
    ensures current == Start(fs, requested)
  {
    ghost var value := f => Request(requested, f);
    current := map[];
    for i := 0 to |fs|
      invariant Fills(fs[..i], current, value)
    {
      FillsOneMore(fs, i, current, value);
      current := current[fs[i].key := Request(requested, fs[i])];
    }
    assert fs[..|fs|] == fs;
  }

  method DepLevels(fs: seq<Feature>, current: Config) returns (depLevel: Config)
    ensures depLevel.Keys == Keys(fs)
    ensures forall k | k in depLevel :: depLevel[k] == DepLevel(Owner(fs, k), current)
  {
    ghost var value := f => DepLevel(f, current);
    depLevel := map[];
    for i := 0 to |fs|
      invariant Fills(fs[..i], depLevel, value)
    {
      var r := EvalDepExpr(fs[i].dependsOn, current);
      FillsOneMore(fs, i, depLevel, value);
      depLevel := depLevel[fs[i].key := if r.Some? then r.value else TRI_N];
    }
    assert fs[..|fs|] == fs;
  }

  method Ceilings(fs: seq<Feature>, depLevel: Config) returns (maxAllowed: Config)
    requires depLevel.Keys == Keys(fs)
    ensures maxAllowed.Keys == Keys(fs)
    ensures forall k | k in maxAllowed ::
              maxAllowed[k] == if Owner(fs, k).kind == Bool then (if depLevel[k] >= TRI_Y then TRI_Y else TRI_N)
                               else depLevel[k]
  {
    ghost var value := (f: Feature) =>
      if f.key !in depLevel then TRI_N
      else if f.kind == Bool then (if depLevel[f.key] >= TRI_Y then TRI_Y else TRI_N) else depLevel[f.key];
    maxAllowed := map[];
    for i := 0 to |fs|
      invariant Fills(fs[..i], maxAllowed, value)
    {
      FillsOneMore(fs, i, maxAllowed, value);
      assert fs[i].key in Keys(fs);
      var dep := depLevel[fs[i].key];
      maxAllowed := maxAllowed[fs[i].key := if fs[i].kind == Bool then (if dep >= TRI_Y then TRI_Y else TRI_N) else dep];
    }
    assert fs[..|fs|] == fs;
  }

  /** One of the two inner loops: raise the floor under every listed target that is a feature. */
  method Raise(fs: seq<Feature>, floors: Config, targets: seq<string>, v: Tri, isImply: bool) returns (raised: Config)
    requires floors.Keys == Keys(fs)
    ensures raised.Keys == Keys(fs)
    ensures forall k | k in raised ::
              raised[k] == Max(floors[k], if k in targets then SelectFloor(v, Owner(fs, k).kind, isImply) else TRI_N)
  {
    raised := floors;
    for j := 0 to |targets|
      invariant raised.Keys == Keys(fs)
      invariant forall k | k in raised ::
                  raised[k] == Max(floors[k], if k in targets[..j] then SelectFloor(v, Owner(fs, k).kind, isImply) else TRI_N)
    {
      var dst := targets[j];
      assert targets[..j + 1] == targets[..j] + [dst];
      if dst in Keys(fs) {
        var floor := SelectFloor(v, Owner(fs, dst).kind, isImply);
        if floor > raised[dst] {
          raised := raised[dst := floor];
        }
      }
    }
    assert targets[..|targets|] == targets;
  }

  /** One more source raises a floor by what it selects, and by what it implies. */
  lemma FloorNext(fs: seq<Feature>, i: nat, c: Config, key: string, kind: Kind)
    requires i < |fs|
    ensures var src, v := fs[i], Lookup(c, fs[i].key); var before := Floor(fs[..i], c, key, kind);
            Floor(fs[..i + 1], c, key, kind) ==
              if v > TRI_N
              then Max(Max(before, if key in src.selects then SelectFloor(v, kind, false) else TRI_N),
                       if key in src.implies then SelectFloor(v, kind, true) else TRI_N)
              else before
  {
    assert fs[..i + 1][..i] == fs[..i];
  }

  /** The floors that the first n sources put under every feature. */
  ghost predicate FloorTable(fs: seq<Feature>, n: nat, c: Config, floors: Config) {
    && n <= |fs| && floors.Keys == Keys(fs)
    && forall k | k in floors :: floors[k] == Floor(fs[..n], c, k, Owner(fs, k).kind)
  }

  /** One source at work: what it selects, then what it implies. */
  method PushFrom(fs: seq<Feature>, i: nat, current: Config, floors: Config) returns (raised: Config)
    requires i < |fs| && FloorTable(fs, i, current, floors)
    ensures FloorTable(fs, i + 1, current, raised)
  {
    hide Keys, Owner, Floor, SelectFloor;
    var src := fs[i];
    var v := Lookup(current, src.key);
    raised := floors;
    if v > TRI_N {
      raised := Raise(fs, raised, src.selects, v, false);
      raised := Raise(fs, raised, src.implies, v, true);
    }
    forall k | k in raised
      ensures raised[k] == Floor(fs[..i + 1], current, k, Owner(fs, k).kind)
    {
      FloorNext(fs, i, current, k, Owner(fs, k).kind);
      assert k in floors && floors[k] == Floor(fs[..i], current, k, Owner(fs, k).kind);
    }
  }

  method Floors(fs: seq<Feature>, current: Config) returns (minRequired: Config)
    ensures minRequired.Keys == Keys(fs)
    ensures forall k | k in minRequired :: minRequired[k] == Floor(fs, current, k, Owner(fs, k).kind)
  {
    minRequired := map k | k in Keys(fs) :: TRI_N;
    var i: nat := 0;
    hide Keys, Owner;
    assert FloorTable(fs, 0, current, minRequired);
    while i < |fs|
      invariant i <= |fs| && FloorTable(fs, i, current, minRequired)
    {
      minRequired := PushFrom(fs, i, current, minRequired);
      i := i + 1;
    }
    assert fs[..|fs|] == fs;
  }

  /** The branches that settle one value between its floor and its ceiling. */
  method Settle(kind: Kind, req: Tri, floor: Tri, allowed: Tri) returns (eff: Tri)
    ensures eff == Resolve(kind, req, floor, allowed)
  {
    var ceil := allowed;
    if floor > ceil {
      ceil := floor;
    }
    if kind == Bool {
      eff := if req > TRI_N then TRI_Y else TRI_N;
      if ceil <= TRI_N {
        eff := TRI_N;
      } else if floor > TRI_N {
        eff := TRI_Y;
      }
    } else {
      eff := req;
      if eff < floor {
        eff := floor;
      }
      if eff > ceil {
        eff := ceil;
      }
    }
  }

  ghost predicate QuietUpTo(fs: seq<Feature>, requested: map<string, int>, c: Config, n: nat)
    requires n <= |fs|
  {
    forall i | 0 <= i < n :: NextValue(fs, requested, c, fs[i]) == Lookup(c, fs[i].key)
  }

  lemma QuietOneMore(fs: seq<Feature>, requested: map<string, int>, c: Config, i: nat)
    requires i < |fs|
    ensures fs[i].key in Keys(fs)
    ensures QuietUpTo(fs, requested, c, i + 1) <==>
              QuietUpTo(fs, requested, c, i) && NextValue(fs, requested, c, fs[i]) == Lookup(c, fs[i].key)
  {}

  ghost function ItemValue(fs: seq<Feature>, requested: map<string, int>, c: Config): Feature -> Tri {
    (f: Feature) => if f.key in Keys(fs) then NextValue(fs, requested, c, f) else TRI_N
  }

  lemma NothingFilled(fs: seq<Feature>, requested: map<string, int>, c: Config)
    ensures Fills(fs[..0], map[], ItemValue(fs, requested, c)) && QuietUpTo(fs, requested, c, 0)
  {}

  lemma FilledIsNext(fs: seq<Feature>, requested: map<string, int>, c: Config, next: Config)
    requires Fills(fs, next, ItemValue(fs, requested, c))
    ensures next == Next(fs, requested, c)
  {
    hide NextValue, Keys, Owner;
    forall k | k in Keys(fs) ensures next[k] == NextValue(fs, requested, c, Owner(fs, k)) {}
  }

  lemma AllFilled(fs: seq<Feature>, requested: map<string, int>, c: Config, next: Config)
    requires Fills(fs[..|fs|], next, ItemValue(fs, requested, c))
    ensures next == Next(fs, requested, c)
    ensures QuietUpTo(fs, requested, c, |fs|) <==> Quiet(fs, requested, c)
  {
    assert fs[..|fs|] == fs;
    hide Fills, Next, NextValue, Keys, ItemValue;
    FilledIsNext(fs, requested, c, next);
  }

  lemma TablesGiveNextValue(fs: seq<Feature>, requested: map<string, int>, c: Config, f: Feature, floor: Tri, allowed: Tri)
    requires f.key in Keys(fs)
    requires floor == Floor(fs, c, f.key, Owner(fs, f.key).kind) && allowed == Ceiling(Owner(fs, f.key), c)
    ensures Resolve(f.kind, Request(requested, f), floor, allowed) == NextValue(fs, requested, c, f)
    ensures ItemValue(fs, requested, c)(f) == NextValue(fs, requested, c, f)
  {
    hide Floor, Ceiling, Resolve, Request;
  }

  method NextValues(fs: seq<Feature>, requested: map<string, int>, current: Config,
                    minRequired: Config, maxAllowed: Config)
    returns (next: Config, changed: bool)
    requires minRequired.Keys == Keys(fs) && maxAllowed.Keys == Keys(fs)
    requires forall k | k in minRequired :: minRequired[k] == Floor(fs, current, k, Owner(fs, k).kind)
    requires forall k | k in maxAllowed :: maxAllowed[k] == Ceiling(Owner(fs, k), current)
    ensures next == Next(fs, requested, current)
    ensures !changed <==> Quiet(fs, requested, current)
  {
    hide *;
    next, changed := map[], false;
    NothingFilled(fs, requested, current);
    for i := 0 to |fs|
      invariant Fills(fs[..i], next, ItemValue(fs, requested, current))
      invariant !changed <==> QuietUpTo(fs, requested, current, i)
    {
      var item := fs[i];
      QuietOneMore(fs, requested, current, i);
      var eff := Settle(item.kind, Request(requested, item), minRequired[item.key], maxAllowed[item.key]);
      TablesGiveNextValue(fs, requested, current, item, minRequired[item.key], maxAllowed[item.key]);
      FillsOneMore(fs, i, next, ItemValue(fs, requested, current));
      next := next[item.key := eff];
      if eff != Lookup(current, item.key) {
        changed := true;
      }
    }
    AllFilled(fs, requested, current, next);
  }

  /** The tables of a round: what each feature may be, must be, and shows, in a configuration. */
  ghost predicate Tables(fs: seq<Feature>, c: Config, depLevel: Config, visible: map<string, bool>,
                         minRequired: Config, maxAllowed: Config) {
    && minRequired.Keys == maxAllowed.Keys == depLevel.Keys == visible.Keys == Keys(fs)
    && forall k | k in depLevel ::
         && depLevel[k] == DepLevel(Owner(fs, k), c)
         && maxAllowed[k] == Ceiling(Owner(fs, k), c)
         && minRequired[k] == Floor(fs, c, k, Owner(fs, k).kind)
         && visible[k] == (depLevel[k] > TRI_N)
  }

  /** One round: its tables, the next configuration, and whether any feature changed. */
  method DoRound(fs: seq<Feature>, requested: map<string, int>, current: Config)
    returns (next: Config, changed: bool, depLevel: Config, visible: map<string, bool>, minRequired: Config, maxAllowed: Config)
    ensures Tables(fs, current, depLevel, visible, minRequired, maxAllowed)
    ensures next == Next(fs, requested, current)
    ensures !changed <==> Quiet(fs, requested, current)
  {
    hide Next, Quiet, Owner, DepLevel, Ceiling, Floor, Keys;
    depLevel := DepLevels(fs, current);
    visible := map k | k in depLevel :: depLevel[k] > TRI_N;
    maxAllowed := Ceilings(fs, depLevel);
    minRequired := Floors(fs, current);
    CeilingTable(fs, current, depLevel, maxAllowed);
    next, changed := NextValues(fs, requested, current, minRequired, maxAllowed);
  }

  /**
    The whole solver. Its answer is the configuration after the number of rounds that Rounds
    describes; the tables are those of the configuration the last round started from.
  */
  method Evaluate(fs: seq<Feature>, requested: map<string, int>) returns (r: EvalResult, rounds: nat)
    ensures Rounds(fs, requested, rounds)
    ensures r.effective == After(fs, requested, rounds)
    ensures r.requested == Start(fs, requested)
    ensures Tables(fs, After(fs, requested, rounds - 1), r.depLevel, r.visible, r.minRequired, r.maxAllowed)
  {
    hide *;
    var maxRounds := MaxRounds(fs);
    SomeRounds(fs);
    var start := StartValues(fs, requested);
    var current := start;
    var depLevel: Config, visible: map<string, bool>, minRequired: Config, maxAllowed: Config := map[], map[], map[], map[];
    var changed := true;
    rounds := 0;
    AtStart(fs, requested, rounds);
    while rounds < maxRounds && changed
      invariant rounds <= maxRounds && current == After(fs, requested, rounds)
      invariant changed ==> Unrest(fs, requested, rounds)
      invariant rounds > 0 ==>
                  && Tables(fs, After(fs, requested, rounds - 1), depLevel, visible, minRequired, maxAllowed)
                  && Unrest(fs, requested, rounds - 1) && (changed || Quiet(fs, requested, After(fs, requested, rounds - 1)))
      invariant rounds == 0 ==> changed
    {
      current, changed, depLevel, visible, minRequired, maxAllowed := DoRound(fs, requested, current);
      AfterNext(fs, requested, rounds);
      UnrestNext(fs, requested, rounds);
      rounds := rounds + 1;
    }
    IntroRounds(fs, requested, rounds);
    r := EvalResult(current, start, visible, depLevel, minRequired, maxAllowed);
  }

  lemma SomeRounds(fs: seq<Feature>)
    ensures MaxRounds(fs) > 0
  {
  }

  lemma AtStart(fs: seq<Feature>, requested: map<string, int>, n: nat)
    requires n == 0
    ensures After(fs, requested, n) == Start(fs, requested) && Unrest(fs, requested, n)
  {
  }

  lemma AfterNext(fs: seq<Feature>, requested: map<string, int>, n: nat)
    ensures After(fs, requested, n + 1) == Next(fs, requested, After(fs, requested, n))
  {
    hide Next, Quiet, Start;
  }

  /** Each of the first rounds changed something. */
  ghost predicate Unrest(fs: seq<Feature>, requested: map<string, int>, n: nat) {
    forall k | 0 <= k < n :: !Quiet(fs, requested, After(fs, requested, k))
  }

  lemma UnrestNext(fs: seq<Feature>, requested: map<string, int>, n: nat)
    requires Unrest(fs, requested, n)
    ensures !Quiet(fs, requested, After(fs, requested, n)) ==> Unrest(fs, requested, n + 1)
  {
  }

  lemma IntroRounds(fs: seq<Feature>, requested: map<string, int>, rounds: nat)
    requires 1 <= rounds <= MaxRounds(fs) && Unrest(fs, requested, rounds - 1)
    requires Quiet(fs, requested, After(fs, requested, rounds - 1)) || rounds == MaxRounds(fs)
    ensures Rounds(fs, requested, rounds)
  {
    hide Next, Quiet, Start;
    var f, q, c := Round(fs, requested), QuietTest(fs, requested), Start(fs, requested);
    assert After(fs, requested, rounds - 1) == Iterate(f, c, rounds - 1);
    forall k | 0 <= k < rounds - 1 ensures !q(Iterate(f, c, k)) {
      assert After(fs, requested, k) == Iterate(f, c, k);
    }
  }

  lemma CeilingTable(fs: seq<Feature>, c: Config, depLevel: Config, maxAllowed: Config)
    requires depLevel.Keys == Keys(fs) && maxAllowed.Keys == Keys(fs)
    requires forall k | k in depLevel :: depLevel[k] == DepLevel(Owner(fs, k), c)
    requires forall k | k in maxAllowed ::
              maxAllowed[k] == if Owner(fs, k).kind == Bool then (if depLevel[k] >= TRI_Y then TRI_Y else TRI_N)
                               else depLevel[k]
    ensures forall k | k in maxAllowed :: maxAllowed[k] == Ceiling(Owner(fs, k), c)
  {}
}
