/**
  The configuration solver: depends/select/imply constraints over tristate features, resolved by
  repeating one round until nothing changes or the round limit is reached.
*/
module Solver {
  import opened Options
  import opened DepExpr
  import opened Iteration
  import opened Lattice

  datatype Kind = Bool | Tristate

  datatype Feature = Feature(key: string, kind: Kind, default: int, dependsOn: string,
                             selects: seq<string>, implies: seq<string>)

  datatype EvalResult = EvalResult(effective: Config, requested: Config, visible: map<string, bool>,
                                   depLevel: Config, minRequired: Config, maxAllowed: Config)

  // ------------------------------------------------------ the parts of a round

  function NormalizeTri(raw: int, kind: Kind): Tri {
    var value := if raw <= 0 then TRI_N else if raw == 1 then TRI_M else TRI_Y;
    if kind == Bool then (if value > TRI_N then TRI_Y else TRI_N) else value
  }

  function Request(requested: map<string, int>, f: Feature): Tri {
    NormalizeTri(if f.key in requested then requested[f.key] else f.default, f.kind)
  }

  function SelectFloor(src: Tri, dst: Kind, isImply: bool): Tri {
    if src <= TRI_N then TRI_N
    else if dst == Bool then (if isImply && src == TRI_M then TRI_N else TRI_Y)
    else src
  }

  function Keys(fs: seq<Feature>): set<string> {
    set i | 0 <= i < |fs| :: fs[i].key
  }

  /** The feature a key stands for: the last one listed under it. */
  function Owner(fs: seq<Feature>, key: string): (f: Feature)
    requires key in Keys(fs)
    ensures f in fs && f.key == key
  {
    var last := fs[|fs| - 1];
    if last.key == key then last
    else
      assert key in Keys(fs[..|fs| - 1]) by {
        var i :| 0 <= i < |fs| && fs[i].key == key;
        assert fs[..|fs| - 1][i].key == key;
      }
      Owner(fs[..|fs| - 1], key)
  }

  /** A dependency that cannot be read counts as n. */
  function DepLevel(f: Feature, c: Config): Tri {
    match Meaning(f.dependsOn, c)
    case None => TRI_N
    case Some(v) => v
  }

  function Ceiling(f: Feature, c: Config): Tri {
    if f.kind == Bool then (if DepLevel(f, c) >= TRI_Y then TRI_Y else TRI_N) else DepLevel(f, c)
  }

  /** The floor that one source puts under a key. */
  function Push(src: Feature, c: Config, key: string, kind: Kind): Tri {
    Max(if key in src.selects then SelectFloor(Lookup(c, src.key), kind, false) else TRI_N,
        if key in src.implies then SelectFloor(Lookup(c, src.key), kind, true) else TRI_N)
  }

  /** The floor that all sources together put under a key. */
  function Floor(sources: seq<Feature>, c: Config, key: string, kind: Kind): Tri {
    if sources == [] then TRI_N
    else Max(Floor(sources[..|sources| - 1], c, key, kind), Push(sources[|sources| - 1], c, key, kind))
  }

  function Resolve(kind: Kind, req: Tri, floor: Tri, allowed: Tri): Tri {
    var ceil := if floor > allowed then floor else allowed;
    if kind == Bool then
      if ceil <= TRI_N then TRI_N
      else if floor > TRI_N then TRI_Y
      else if req > TRI_N then TRI_Y else TRI_N
    else
      var eff := if req < floor then floor else req;
      if eff > ceil then ceil else eff
  }

  /** The next value computed for one listed feature; tables are indexed by key. */
  function NextValue(fs: seq<Feature>, requested: map<string, int>, c: Config, f: Feature): Tri
    requires f.key in Keys(fs)
  {
    var owner := Owner(fs, f.key);
    Resolve(f.kind, Request(requested, f), Floor(fs, c, f.key, owner.kind), Ceiling(owner, c))
  }

  /** One round. */
  function Next(fs: seq<Feature>, requested: map<string, int>, c: Config): Config {
    map key | key in Keys(fs) :: NextValue(fs, requested, c, Owner(fs, key))
  }

  function Start(fs: seq<Feature>, requested: map<string, int>): Config {
    map key | key in Keys(fs) :: Request(requested, Owner(fs, key))
  }

  function Round(fs: seq<Feature>, requested: map<string, int>): Config -> Config {
    c => Next(fs, requested, c)
  }

  /** The configuration after n rounds. */
  function After(fs: seq<Feature>, requested: map<string, int>, n: nat): Config {
    Iterate(Round(fs, requested), Start(fs, requested), n)
  }

  /** What the loop tests at the end of a round: no listed feature changed its value. */
  predicate Quiet(fs: seq<Feature>, requested: map<string, int>, c: Config) {
    forall i | 0 <= i < |fs| :: NextValue(fs, requested, c, fs[i]) == Lookup(c, fs[i].key)
  }

  /** A configuration of exactly the listed keys that a round reproduces. */
  predicate Fixpoint(fs: seq<Feature>, requested: map<string, int>, c: Config) {
    c.Keys == Keys(fs) && AtRest(Round(fs, requested), c)
  }

  function MaxRounds(fs: seq<Feature>): nat {
    if |fs| == 0 then 1 else |fs| * 8
  }

  predicate DistinctKeys(fs: seq<Feature>) {
    forall i, j | 0 <= i < j < |fs| :: fs[i].key != fs[j].key
  }

  // ------------------------------------------------------------ rounds and rest

  lemma OwnerPrefix(fs: seq<Feature>, i: nat, key: string)
    requires i < |fs| && key in Keys(fs[..i + 1])
    ensures fs[i].key == key ==> Owner(fs[..i + 1], key) == fs[i]
    ensures fs[i].key != key ==> key in Keys(fs[..i]) && Owner(fs[..i + 1], key) == Owner(fs[..i], key)
  {
    assert fs[..i + 1][..i] == fs[..i];
  }

  lemma {:induction false} OwnerDistinct(fs: seq<Feature>, i: nat)
    requires DistinctKeys(fs) && i < |fs|
    ensures fs[i].key in Keys(fs) && Owner(fs, fs[i].key) == fs[i]
  {
    if i < |fs| - 1 {
      OwnerDistinct(fs[..|fs| - 1], i);
    }
  }

  lemma RoundAt(fs: seq<Feature>, requested: map<string, int>, c: Config, key: string)
    requires key in Keys(fs)
    ensures Round(fs, requested)(c).Keys == Keys(fs)
    ensures Round(fs, requested)(c)[key] == NextValue(fs, requested, c, Owner(fs, key))
  {}

  lemma QuietAt(fs: seq<Feature>, requested: map<string, int>, c: Config, key: string)
    requires c.Keys == Keys(fs) && Quiet(fs, requested, c) && key in Keys(fs)
    ensures Round(fs, requested)(c)[key] == c[key]
  {
    RoundAt(fs, requested, c, key);
    var f := Owner(fs, key);
    var i :| 0 <= i < |fs| && fs[i] == f;
    assert NextValue(fs, requested, c, fs[i]) == Lookup(c, fs[i].key);
  }

  /** A quiet round leaves the configuration as it was. */
  lemma QuietIsFixpoint(fs: seq<Feature>, requested: map<string, int>, c: Config)
    requires c.Keys == Keys(fs) && Quiet(fs, requested, c)
    ensures Fixpoint(fs, requested, c)
  {
    var c' := Round(fs, requested)(c);
    assert c'.Keys == c.Keys;
    hide NextValue, Next;
    forall key | key in Keys(fs) ensures c'[key] == c[key] {
      QuietAt(fs, requested, c, key);
    }
    SameValues(c', c);
  }

  lemma FixpointIsQuiet(fs: seq<Feature>, requested: map<string, int>, c: Config)
    requires Fixpoint(fs, requested, c) && DistinctKeys(fs)
    ensures Quiet(fs, requested, c)
  {
    forall i | 0 <= i < |fs| ensures NextValue(fs, requested, c, fs[i]) == Lookup(c, fs[i].key) {
      OwnerDistinct(fs, i);
      RoundAt(fs, requested, c, fs[i].key);
    }
  }

  lemma {:induction false} AfterKeys(fs: seq<Feature>, requested: map<string, int>, n: nat)
    ensures After(fs, requested, n).Keys == Keys(fs)
  {}

  /** What the loop tests, as a function of the configuration a round starts from. */
  function QuietTest(fs: seq<Feature>, requested: map<string, int>): Config -> bool {
    c => Quiet(fs, requested, c)
  }

  /** The number of rounds the solver runs. */
  predicate Rounds(fs: seq<Feature>, requested: map<string, int>, rounds: nat) {
    StopsAt(Round(fs, requested), QuietTest(fs, requested), Start(fs, requested), MaxRounds(fs), rounds)
  }

  lemma QuietRestsAt(fs: seq<Feature>, requested: map<string, int>, n: nat)
    requires QuietTest(fs, requested)(After(fs, requested, n))
    ensures AtRest(Round(fs, requested), After(fs, requested, n))
  {
    AfterKeys(fs, requested, n);
    QuietIsFixpoint(fs, requested, After(fs, requested, n));
  }

  lemma RestIsQuietAt(fs: seq<Feature>, requested: map<string, int>, n: nat)
    requires DistinctKeys(fs) && AtRest(Round(fs, requested), After(fs, requested, n))
    ensures QuietTest(fs, requested)(After(fs, requested, n))
  {
    AfterKeys(fs, requested, n);
    FixpointIsQuiet(fs, requested, After(fs, requested, n));
  }

  /**
    If round m is a fixpoint within the limit then the solver's answer is that fixpoint, even when
    a key listed twice keeps the loop running; with distinct keys it stops by round m + 1.
  */
  lemma StopsAtFixpoint(fs: seq<Feature>, requested: map<string, int>, m: nat, rounds: nat)
    requires Rounds(fs, requested, rounds)
    requires m < MaxRounds(fs) && AtRest(Round(fs, requested), After(fs, requested, m))
    ensures After(fs, requested, rounds) == After(fs, requested, m)
    ensures AtRest(Round(fs, requested), After(fs, requested, rounds))
    ensures DistinctKeys(fs) ==> rounds <= m + 1
  {
    hide Quiet, Next;
    if QuietTest(fs, requested)(After(fs, requested, rounds - 1)) { QuietRestsAt(fs, requested, rounds - 1); }
    if DistinctKeys(fs) { RestIsQuietAt(fs, requested, m); }
    StopsWithRest(Round(fs, requested), QuietTest(fs, requested), Start(fs, requested), MaxRounds(fs), rounds, m);
  }

  // --------------------------------------------------- what a fixpoint satisfies

  lemma {:induction false} NoFloor(fs: seq<Feature>, c: Config, key: string, kind: Kind)
    requires forall i | 0 <= i < |fs| :: Push(fs[i], c, key, kind) == TRI_N
    ensures Floor(fs, c, key, kind) == TRI_N
  {
    if fs != [] {
      var init := fs[..|fs| - 1];
      forall i | 0 <= i < |init| ensures Push(init[i], c, key, kind) == TRI_N {
        assert init[i] == fs[i];
      }
      NoFloor(init, c, key, kind);
      assert Push(fs[|fs| - 1], c, key, kind) == TRI_N;
    }
  }

  // ---------------------------------------------------- what a round is to give

  /** Some feature at a level or above selects a key. */
  predicate Selected(fs: seq<Feature>, c: Config, key: string, level: Tri) {
    exists i | 0 <= i < |fs| :: key in fs[i].selects && Lookup(c, fs[i].key) >= level
  }

  /** Some feature at a level or above implies a key. */
  predicate Implied(fs: seq<Feature>, c: Config, key: string, level: Tri) {
    exists i | 0 <= i < |fs| :: key in fs[i].implies && Lookup(c, fs[i].key) >= level
  }

  /** What is wanted of a feature: what was requested, or else its default. */
  function Wanted(f: Feature, requested: map<string, int>): int {
    if f.key in requested then requested[f.key] else f.default
  }

  /** A feature is wanted at a level, by request or default, and what it depends on is high enough. */
  predicate Granted(f: Feature, requested: map<string, int>, c: Config, level: Tri, needed: Tri) {
    Wanted(f, requested) >= level
    && match Meaning(f.dependsOn, c)
       case None => false
       case Some(v) => v >= needed
  }

  /** A request, or the default in its place, is brought into range; of a bool anything above n is y. */
  lemma RequestMeans(requested: map<string, int>, f: Feature, level: Tri)
    requires level > TRI_N
    ensures Request(requested, f) >= level <==> Wanted(f, requested) >= if f.kind == Bool then TRI_M else level
  {
  }

  /**
    Whether a feature is to reach a level in view of the values c. A tristate is to if it is selected or
    implied from that level, or granted it. A bool is to be y if something selects it at all, something at
    y implies it, or it is wanted and its dependency is y.
  */
  predicate Due(fs: seq<Feature>, requested: map<string, int>, c: Config, key: string, level: Tri)
    requires key in Keys(fs)
  {
    var f := Owner(fs, key);
    if f.kind == Bool then
      Selected(fs, c, key, TRI_M) || Implied(fs, c, key, TRI_Y) || Granted(f, requested, c, TRI_M, TRI_Y)
    else
      Selected(fs, c, key, level) || Implied(fs, c, key, level) || Granted(f, requested, c, level, level)
  }

  /** The value a feature is to have: it reaches just the levels it is to. */
  predicate Deserves(fs: seq<Feature>, requested: map<string, int>, c: Config, key: string, v: Tri)
    requires key in Keys(fs)
  {
    forall level: Tri | level > TRI_N :: v >= level <==> Due(fs, requested, c, key, level)
  }

  lemma PushReaches(src: Feature, c: Config, key: string, kind: Kind, level: Tri)
    requires level > TRI_N
    ensures Push(src, c, key, kind) >= level <==>
            || (key in src.selects && Lookup(c, src.key) >= if kind == Bool then TRI_M else level)
            || (key in src.implies && Lookup(c, src.key) >= if kind == Bool then TRI_Y else level)
  {
    hide Lookup;
  }

  lemma {:induction false} FloorReaches(fs: seq<Feature>, c: Config, key: string, kind: Kind, level: Tri)
    requires level > TRI_N
    ensures Floor(fs, c, key, kind) >= level <==> exists i | 0 <= i < |fs| :: Push(fs[i], c, key, kind) >= level
  {
    if fs != [] {
      var init := fs[..|fs| - 1];
      FloorReaches(init, c, key, kind, level);
      assert forall i | 0 <= i < |init| :: init[i] == fs[i];
      hide Push;
      if i :| 0 <= i < |init| && Push(init[i], c, key, kind) >= level { assert Push(fs[i], c, key, kind) >= level; }
    }
  }

  /** The floor, said without tables. */
  lemma FloorMeans(fs: seq<Feature>, c: Config, key: string, kind: Kind, level: Tri)
    requires level > TRI_N
    ensures Floor(fs, c, key, kind) >= level <==>
            || Selected(fs, c, key, if kind == Bool then TRI_M else level)
            || Implied(fs, c, key, if kind == Bool then TRI_Y else level)
  {
    FloorReaches(fs, c, key, kind, level);
    hide Floor, Push, Lookup;
    forall i | 0 <= i < |fs|
      ensures Push(fs[i], c, key, kind) >= level <==>
              || (key in fs[i].selects && Lookup(c, fs[i].key) >= if kind == Bool then TRI_M else level)
              || (key in fs[i].implies && Lookup(c, fs[i].key) >= if kind == Bool then TRI_Y else level)
    {
      PushReaches(fs[i], c, key, kind, level);
    }
  }

  lemma ResolveReaches(f: Feature, requested: map<string, int>, c: Config, floor: Tri, level: Tri)
    requires level > TRI_N && (f.kind == Bool ==> floor != TRI_M)
    ensures Resolve(f.kind, Request(requested, f), floor, Ceiling(f, c)) >= level <==>
            || floor >= level
            || (if f.kind == Bool then Granted(f, requested, c, TRI_M, TRI_Y) else Granted(f, requested, c, level, level))
    ensures f.kind == Bool ==> Resolve(f.kind, Request(requested, f), floor, Ceiling(f, c)) != TRI_M
  {
    hide Meaning;
  }

  lemma NextReaches(fs: seq<Feature>, requested: map<string, int>, c: Config, key: string, level: Tri)
    requires key in Keys(fs) && level > TRI_N
    ensures NextValue(fs, requested, c, Owner(fs, key)) >= level <==> Due(fs, requested, c, key, level)
  {
    var f := Owner(fs, key);
    FloorMeans(fs, c, key, f.kind, level);
    FloorMeans(fs, c, key, f.kind, TRI_M);
    FloorMeans(fs, c, key, f.kind, TRI_Y);
    hide Floor, Owner, Selected, Implied, Granted, Resolve, Request, Ceiling;
    ResolveReaches(f, requested, c, Floor(fs, c, key, f.kind), level);
  }

  /** Main result: a round gives every feature the value it is to have, and there is only one such value. */
  lemma RoundDeserves(fs: seq<Feature>, requested: map<string, int>, c: Config, key: string, v: Tri)
    requires key in Keys(fs)
    ensures Round(fs, requested)(c).Keys == Keys(fs)
    ensures Deserves(fs, requested, c, key, v) <==> v == Round(fs, requested)(c)[key]
  {
    RoundAt(fs, requested, c, key);
    var next := NextValue(fs, requested, c, Owner(fs, key));
    hide NextValue, Round, Next, Owner, Due;
    forall level: Tri | level > TRI_N
      ensures next >= level <==> Due(fs, requested, c, key, level)
    {
      NextReaches(fs, requested, c, key, level);
    }
    if Deserves(fs, requested, c, key, v) {
      assert v >= TRI_M <==> Due(fs, requested, c, key, TRI_M);
      assert v >= TRI_Y <==> Due(fs, requested, c, key, TRI_Y);
    }
  }

  /** Main result: the fixpoints are exactly the configurations in which every feature has the value it is to have. */
  lemma FixpointIff(fs: seq<Feature>, requested: map<string, int>, c: Config)
    ensures Fixpoint(fs, requested, c) <==>
            c.Keys == Keys(fs) && forall key | key in Keys(fs) :: Deserves(fs, requested, c, key, c[key])
  {
    var next := Round(fs, requested)(c);
    hide Round, Next, Deserves;
    KeysNext(fs, requested, c);
    if c.Keys == Keys(fs) {
      forall key | key in Keys(fs)
        ensures Deserves(fs, requested, c, key, c[key]) <==> next[key] == c[key]
      {
        RoundDeserves(fs, requested, c, key, c[key]);
      }
      if forall key | key in Keys(fs) :: next[key] == c[key] { SameValues(next, c); }
    }
  }

  lemma KeysNext(fs: seq<Feature>, requested: map<string, int>, c: Config)
    ensures Round(fs, requested)(c).Keys == Keys(fs)
  {
  }

  /** A dependency that reads as a value at or above a level. */
  predicate Allows(f: Feature, c: Config, level: Tri) {
    match Meaning(f.dependsOn, c)
    case None => level == TRI_N
    case Some(v) => v >= level
  }

  /** Nothing that selects a key is above n, and nothing that implies it high enough. */
  predicate Unpushed(fs: seq<Feature>, c: Config, key: string, kind: Kind)
    requires c.Keys == Keys(fs)
  {
    && (forall i | 0 <= i < |fs| && key in fs[i].selects :: c[fs[i].key] == TRI_N)
    && (forall i | 0 <= i < |fs| && key in fs[i].implies :: c[fs[i].key] < if kind == Bool then TRI_Y else TRI_M)
  }

  /**
    At rest every select and imply is honoured; a feature that nothing pushes up stays within its
    dependency and its request; and a bool is never m.
  */
  lemma FixpointHonours(fs: seq<Feature>, requested: map<string, int>, c: Config, key: string)
    requires Fixpoint(fs, requested, c) && key in Keys(fs)
    ensures forall i | 0 <= i < |fs| && key in fs[i].selects ::
              if Owner(fs, key).kind == Bool then c[fs[i].key] > TRI_N ==> c[key] == TRI_Y else c[key] >= c[fs[i].key]
    ensures forall i | 0 <= i < |fs| && key in fs[i].implies ::
              if Owner(fs, key).kind == Bool then c[fs[i].key] == TRI_Y ==> c[key] == TRI_Y else c[key] >= c[fs[i].key]
    ensures Unpushed(fs, c, key, Owner(fs, key).kind) ==> Allows(Owner(fs, key), c, c[key])
    ensures Unpushed(fs, c, key, Owner(fs, key).kind) && c[key] > TRI_N ==>
              Wanted(Owner(fs, key), requested) >= if Owner(fs, key).kind == Bool then TRI_M else c[key]
    ensures Owner(fs, key).kind == Bool ==> c[key] != TRI_M
  {
    FixpointIff(fs, requested, c);
    var kind, v := Owner(fs, key).kind, c[key];
    assert Deserves(fs, requested, c, key, v);
    hide Fixpoint, Owner, Meaning, Deserves;
    DueAt(fs, requested, c, key, v, TRI_M);
    DueAt(fs, requested, c, key, v, TRI_Y);
    hide Due, Granted, Selected, Implied;
    forall i | 0 <= i < |fs| && key in fs[i].selects
      ensures if kind == Bool then c[fs[i].key] > TRI_N ==> v == TRI_Y else v >= c[fs[i].key]
    {
      ByLevel(fs, c, key, i);
    }
    forall i | 0 <= i < |fs| && key in fs[i].implies
      ensures if kind == Bool then c[fs[i].key] == TRI_Y ==> v == TRI_Y else v >= c[fs[i].key]
    {
      ByLevel(fs, c, key, i);
    }
    if Unpushed(fs, c, key, kind) { NotPushed(fs, c, key, kind); }
    hide Unpushed;
    GrantAllows(Owner(fs, key), requested, c);
  }

  lemma ByLevel(fs: seq<Feature>, c: Config, key: string, i: nat)
    requires c.Keys == Keys(fs) && i < |fs|
    ensures key in fs[i].selects ==> forall level: Tri | level <= c[fs[i].key] :: Selected(fs, c, key, level)
    ensures key in fs[i].implies ==> forall level: Tri | level <= c[fs[i].key] :: Implied(fs, c, key, level)
  {
    assert Lookup(c, fs[i].key) == c[fs[i].key];
  }

  lemma NotPushed(fs: seq<Feature>, c: Config, key: string, kind: Kind)
    requires c.Keys == Keys(fs) && Unpushed(fs, c, key, kind)
    ensures !Selected(fs, c, key, TRI_M) && !Selected(fs, c, key, TRI_Y)
    ensures !Implied(fs, c, key, TRI_Y) && (kind == Tristate ==> !Implied(fs, c, key, TRI_M))
  {
    assert forall i | 0 <= i < |fs| :: Lookup(c, fs[i].key) == c[fs[i].key];
    hide Lookup;
  }

  lemma GrantAllows(f: Feature, requested: map<string, int>, c: Config)
    ensures forall level: Tri, needed: Tri | Granted(f, requested, c, level, needed) ::
              Wanted(f, requested) >= level && Allows(f, c, needed)
    ensures Allows(f, c, TRI_N)
  {
    hide Meaning;
  }

  lemma DueAt(fs: seq<Feature>, requested: map<string, int>, c: Config, key: string, v: Tri, level: Tri)
    requires key in Keys(fs) && Deserves(fs, requested, c, key, v) && level > TRI_N
    ensures v >= level <==>
            if Owner(fs, key).kind == Bool then
              || Selected(fs, c, key, TRI_M) || Implied(fs, c, key, TRI_Y)
              || Granted(Owner(fs, key), requested, c, TRI_M, TRI_Y)
            else
              || Selected(fs, c, key, level) || Implied(fs, c, key, level)
              || Granted(Owner(fs, key), requested, c, level, level)
  {
    hide Selected, Implied, Granted, Owner;
    assert v >= level <==> Due(fs, requested, c, key, level);
  }
}
