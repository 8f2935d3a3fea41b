/**
  When the configuration solver converges: always if the influence graph has no cycle; if no
  dependency negates and the first round moves every value the same way; and not in general.
*/
module Convergence {
  import opened Options
  import opened DepExpr
  import opened Iteration
  import opened Lattice
  import opened Solver

  // ----------------------------------------------------------- influence graph

  function DependencySymbols(f: Feature): set<string> {
    if Strip(f.dependsOn) == "" then {}
    else match Reads(f.dependsOn)
         case None => {}
         case Some(t) => Symbols(Abstract(t))
  }

  predicate Pushes(src: Feature, key: string) { key in src.selects || key in src.implies }

  /** The value of key a is read when key b is computed. */
  predicate Influences(fs: seq<Feature>, a: string, b: string) {
    && a in Keys(fs) && b in Keys(fs)
    && (a in DependencySymbols(Owner(fs, b)) || exists i :: 0 <= i < |fs| && fs[i].key == a && Pushes(fs[i], b))
  }

  /** A closed walk along influences. */
  predicate Cycle(fs: seq<Feature>, walk: seq<string>) {
    && |walk| > 1 && walk[0] == walk[|walk| - 1]
    && forall i | 0 <= i < |walk| - 1 :: Influences(fs, walk[i], walk[i + 1])
  }

  ghost predicate Acyclic(fs: seq<Feature>) { forall walk :: !Cycle(fs, walk) }

  // ------------------------------------------ an acyclic graph can be numbered

  ghost predicate Ranked(fs: seq<Feature>, rank: map<string, nat>) {
    && rank.Keys == Keys(fs)
    && forall a, b | Influences(fs, a, b) :: rank[a] < rank[b]
  }

  /** A walk backwards inside s, every step an influence. */
  predicate Walk(fs: seq<Feature>, s: set<string>, w: seq<string>) {
    && (forall i | 0 <= i < |w| :: w[i] in s)
    && (forall i | 0 <= i < |w| - 1 :: Influences(fs, w[i], w[i + 1]))
  }

  lemma {:induction false} Pigeonhole(s: set<string>, w: seq<string>) returns (i: nat, j: nat)
    requires |w| > |s| && forall k | 0 <= k < |w| :: w[k] in s
    ensures i < j < |w| && w[i] == w[j]
    decreases |w|
  {
    if k :| 1 <= k < |w| && w[k] == w[0] {
      i, j := 0, k;
    } else {
      var s', w' := s - {w[0]}, w[1..];
      forall k | 0 <= k < |w'| ensures w'[k] in s' { assert w'[k] == w[k + 1]; }
      i, j := Pigeonhole(s', w');
      i, j := i + 1, j + 1;
    }
  }

  lemma WalkCloses(fs: seq<Feature>, s: set<string>, w: seq<string>, i: nat, j: nat)
    requires Walk(fs, s, w) && i < j < |w| && w[i] == w[j]
    ensures Cycle(fs, w[i..j + 1])
  {
    var walk := w[i..j + 1];
    forall k | 0 <= k < |walk| - 1 ensures Influences(fs, walk[k], walk[k + 1]) {
      assert Influences(fs, w[i + k], w[(i + k) + 1]);
    }
  }

  /** Without a cycle, some member of s is influenced by no member of s. */
  lemma HasSource(fs: seq<Feature>, s: set<string>) returns (k: string)
    requires Acyclic(fs) && s != {}
    ensures k in s && forall a | a in s :: !Influences(fs, a, k)
  {
    k :| k in s;
    var w := [k];
    while |w| <= |s| && exists a :: a in s && Influences(fs, a, w[0])
      invariant 0 < |w| && Walk(fs, s, w)
      decreases |s| + 1 - |w|
    {
      var a :| a in s && Influences(fs, a, w[0]);
      w := [a] + w;
    }
    if |w| > |s| {
      var i, j := Pigeonhole(s, w);
      WalkCloses(fs, s, w, i, j);
      assert false;
    }
    k := w[0];
  }

  /** Numbering the members of s below n, given that everything outside s is numbered above it. */
  lemma {:induction false} Number(fs: seq<Feature>, s: set<string>) returns (rank: map<string, nat>)
    requires Acyclic(fs) && s <= Keys(fs)
    ensures rank.Keys == s
    ensures forall a, b | a in s && b in s && Influences(fs, a, b) :: rank[a] < rank[b]
    decreases |s|
  {
    if s == {} {
      rank := map[];
    } else {
      var k := HasSource(fs, s);
      var rest := Number(fs, s - {k});
      rank := map x | x in s :: if x == k then 0 else rest[x] + 1;
    }
  }

  /** How many keys are numbered lower. */
  ghost function Height(rank: map<string, nat>, key: string): nat
    requires key in rank
  {
    |set k | k in rank && rank[k] < rank[key]|
  }

  lemma HeightBound(rank: map<string, nat>, key: string)
    requires key in rank
    ensures Height(rank, key) < |rank.Keys|
  {
    var lower := set k | k in rank && rank[k] < rank[key];
    assert lower <= rank.Keys - {key};
    SubsetSize(lower, rank.Keys - {key});
  }

  lemma HeightMonotone(rank: map<string, nat>, a: string, b: string)
    requires a in rank && b in rank && rank[a] < rank[b]
    ensures Height(rank, a) < Height(rank, b)
  {
    var la := set k | k in rank && rank[k] < rank[a];
    var lb := set k | k in rank && rank[k] < rank[b];
    assert la + {a} <= lb;
    SubsetSize(la + {a}, lb);
  }

  lemma {:induction false} KeyCount(fs: seq<Feature>)
    ensures |Keys(fs)| <= |fs|
  {
    if fs != [] {
      var init := fs[..|fs| - 1];
      KeyCount(init);
      assert Keys(fs) == Keys(init) + {fs[|fs| - 1].key} by {
        forall k | k in Keys(fs) ensures k in Keys(init) + {fs[|fs| - 1].key} {
          var i :| 0 <= i < |fs| && fs[i].key == k;
          if i < |init| { assert init[i].key == k; }
        }
        forall k | k in Keys(init) ensures k in Keys(fs) {
          var i :| 0 <= i < |init| && init[i].key == k;
          assert fs[i].key == k;
        }
      }
    }
  }

  // ------------------------------------------------- convergence without cycles

  lemma {:induction false} FloorReadsOnlyPushers(sources: seq<Feature>, a: Config, b: Config, key: string, kind: Kind)
    requires forall i | 0 <= i < |sources| && Pushes(sources[i], key) ::
               Lookup(a, sources[i].key) == Lookup(b, sources[i].key)
    ensures Floor(sources, a, key, kind) == Floor(sources, b, key, kind)
  {
    if sources != [] {
      var init := sources[..|sources| - 1];
      forall i | 0 <= i < |init| && Pushes(init[i], key) ensures Lookup(a, init[i].key) == Lookup(b, init[i].key) {
        assert Pushes(sources[i], key);
      }
      FloorReadsOnlyPushers(init, a, b, key, kind);
    }
  }

  lemma DepLevelReadsOnlySymbols(f: Feature, a: Config, b: Config)
    requires forall s | s in DependencySymbols(f) :: Lookup(a, s) == Lookup(b, s)
    ensures DepLevel(f, a) == DepLevel(f, b)
  {
    if Strip(f.dependsOn) != "" && Reads(f.dependsOn).Some? {
      EvalReadsOnlySymbols(Abstract(Reads(f.dependsOn).value), a, b);
    }
  }

  /** One round computes a key from the keys that influence it. */
  lemma NextReadsOnlyInfluences(fs: seq<Feature>, requested: map<string, int>, a: Config, b: Config, key: string)
    requires a.Keys == Keys(fs) && b.Keys == Keys(fs) && key in Keys(fs)
    requires forall k | Influences(fs, k, key) :: a[k] == b[k]
    ensures NextValue(fs, requested, a, Owner(fs, key)) == NextValue(fs, requested, b, Owner(fs, key))
  {
    var f := Owner(fs, key);
    forall s | s in DependencySymbols(f) ensures Lookup(a, s) == Lookup(b, s) {
      if s in Keys(fs) { assert Influences(fs, s, key); }
    }
    DepLevelReadsOnlySymbols(f, a, b);
    forall i | 0 <= i < |fs| && Pushes(fs[i], key) ensures Lookup(a, fs[i].key) == Lookup(b, fs[i].key) {
      assert Influences(fs, fs[i].key, key);
    }
    FloorReadsOnlyPushers(fs, a, b, key, f.kind);
  }

  lemma RoundExtendsAgreement(fs: seq<Feature>, requested: map<string, int>, rank: map<string, nat>,
                              a: Config, b: Config, n: nat)
    requires Ranked(fs, rank) && AgreeBelow(rank, a, b, n)
    ensures AgreeBelow(rank, Round(fs, requested)(a), Round(fs, requested)(b), n + 1)
  {
    var a', b' := Round(fs, requested)(a), Round(fs, requested)(b);
    assert a'.Keys == Keys(fs) && b'.Keys == Keys(fs);
    forall k | k in rank && rank[k] < n + 1 ensures a'[k] == b'[k] {
      forall j | Influences(fs, j, k) ensures a[j] == b[j] { assert rank[j] < rank[k]; }
      NextReadsOnlyInfluences(fs, requested, a, b, k);
      RoundAt(fs, requested, a, k);
      RoundAt(fs, requested, b, k);
    }
  }

  lemma RoundIsStratified(fs: seq<Feature>, requested: map<string, int>, rank: map<string, nat>)
    requires Ranked(fs, rank)
    ensures Stratified(Round(fs, requested), rank)
  {
    forall a, b, n: nat | AgreeBelow(rank, a, b, n)
      ensures AgreeBelow(rank, Round(fs, requested)(a), Round(fs, requested)(b), n + 1)
    {
      RoundExtendsAgreement(fs, requested, rank, a, b, n);
    }
  }

  lemma CompactRanks(fs: seq<Feature>) returns (rank: map<string, nat>)
    requires Acyclic(fs)
    ensures Ranked(fs, rank) && forall k | k in rank :: rank[k] < |fs|
  {
    var raw := Number(fs, Keys(fs));
    rank := map k | k in raw :: Height(raw, k);
    forall a, b | Influences(fs, a, b) ensures rank[a] < rank[b] { HeightMonotone(raw, a, b); }
    KeyCount(fs);
    forall k | k in rank ensures rank[k] < |fs| { HeightBound(raw, k); }
  }

  /**
    Main result: without a cycle of influences (negation included) there is exactly one fixpoint,
    and the solver returns it; with distinct keys it needs at most one round more than there are
    features.
  */
  lemma AcyclicConverges(fs: seq<Feature>, requested: map<string, int>, rounds: nat)
    requires Acyclic(fs) && Rounds(fs, requested, rounds)
    ensures Fixpoint(fs, requested, After(fs, requested, rounds))
    ensures forall c | Fixpoint(fs, requested, c) :: c == After(fs, requested, rounds)
    ensures DistinctKeys(fs) ==> rounds <= |fs| + 1
  {
    var rank := CompactRanks(fs);
    RoundIsStratified(fs, requested, rank);
    StratifiedRests(Round(fs, requested), rank, Start(fs, requested), |fs|);
    StopsAtFixpoint(fs, requested, |fs|, rounds);
    AfterKeys(fs, requested, rounds);
  }

  // --------------------------------------------------- convergence by monotony

  predicate NegationFreeDependency(f: Feature) {
    Strip(f.dependsOn) == "" || Reads(f.dependsOn) == None || NegationFree(Abstract(Reads(f.dependsOn).value))
  }

  predicate NegationFreeAll(fs: seq<Feature>) { forall i | 0 <= i < |fs| :: NegationFreeDependency(fs[i]) }

  lemma {:induction false} FloorMonotone(sources: seq<Feature>, a: Config, b: Config, key: string, kind: Kind)
    requires Below(a, b)
    ensures Floor(sources, a, key, kind) <= Floor(sources, b, key, kind)
  {
    if sources != [] { FloorMonotone(sources[..|sources| - 1], a, b, key, kind); }
  }

  lemma DepLevelMonotone(f: Feature, a: Config, b: Config)
    requires Below(a, b) && NegationFreeDependency(f)
    ensures DepLevel(f, a) <= DepLevel(f, b)
  {
    if Strip(f.dependsOn) != "" && Reads(f.dependsOn).Some? {
      EvalMonotone(Abstract(Reads(f.dependsOn).value), a, b);
    }
  }

  lemma ResolveMonotone(kind: Kind, req: Tri, f1: Tri, f2: Tri, a1: Tri, a2: Tri)
    requires f1 <= f2 && a1 <= a2
    ensures Resolve(kind, req, f1, a1) <= Resolve(kind, req, f2, a2)
  {}

  lemma NextValueMonotone(fs: seq<Feature>, requested: map<string, int>, a: Config, b: Config, key: string)
    requires NegationFreeAll(fs) && Below(a, b) && key in Keys(fs)
    ensures NextValue(fs, requested, a, Owner(fs, key)) <= NextValue(fs, requested, b, Owner(fs, key))
  {
    var f := Owner(fs, key);
    assert NegationFreeDependency(f) by {
      var i :| 0 <= i < |fs| && fs[i] == f;
      assert NegationFreeDependency(fs[i]);
    }
    DepLevelMonotone(f, a, b);
    FloorMonotone(fs, a, b, key, f.kind);
    ResolveMonotone(f.kind, Request(requested, f), Floor(fs, a, key, f.kind), Floor(fs, b, key, f.kind),
                    Ceiling(f, a), Ceiling(f, b));
  }

  lemma RoundMonotone(fs: seq<Feature>, requested: map<string, int>, a: Config, b: Config)
    requires NegationFreeAll(fs) && Below(a, b) && a.Keys == Keys(fs)
    ensures Below(Round(fs, requested)(a), Round(fs, requested)(b))
  {
    var a', b' := Round(fs, requested)(a), Round(fs, requested)(b);
    assert a'.Keys == Keys(fs) && b'.Keys == Keys(fs);
    forall k | k in Keys(fs) ensures a'[k] <= b'[k] {
      RoundAt(fs, requested, a, k);
      RoundAt(fs, requested, b, k);
      NextValueMonotone(fs, requested, a, b, k);
    }
  }

  lemma RoundIsMonotone(fs: seq<Feature>, requested: map<string, int>)
    requires NegationFreeAll(fs)
    ensures Monotone(Round(fs, requested), Keys(fs))
  {
    var f, keys := Round(fs, requested), Keys(fs);
    forall c: Config | c.Keys == keys ensures f(c).Keys == keys {}
    forall a: Config, b: Config | a.Keys == keys && Below(a, b) ensures Below(f(a), f(b)) {
      RoundMonotone(fs, requested, a, b);
    }
  }

  /**
    With negation-free dependencies, if the first round only lowers values then the solver returns
    the greatest fixpoint at or below the request, within 2n + 1 rounds.
  */
  lemma DescentConverges(fs: seq<Feature>, requested: map<string, int>, rounds: nat)
    requires NegationFreeAll(fs) && Rounds(fs, requested, rounds)
    requires Below(Round(fs, requested)(Start(fs, requested)), Start(fs, requested))
    ensures Fixpoint(fs, requested, After(fs, requested, rounds))
    ensures forall c | Fixpoint(fs, requested, c) && Below(c, Start(fs, requested)) ::
              Below(c, After(fs, requested, rounds))
    ensures DistinctKeys(fs) ==> rounds <= 2 * |fs| + 1
  {
    var f, start := Round(fs, requested), Start(fs, requested);
    RoundIsMonotone(fs, requested);
    KeyCount(fs);
    WeightBound(start);
    var m := DescentRests(f, Keys(fs), start);
    StopsAtFixpoint(fs, requested, m, rounds);
    AfterKeys(fs, requested, rounds);
    forall c | Fixpoint(fs, requested, c) && Below(c, start) ensures Below(c, Iterate(f, start, rounds)) {
      RestBelowStays(f, Keys(fs), c, start, rounds);
    }
  }

  /**
    With negation-free dependencies, if the first round only raises values then the solver returns
    the least fixpoint at or above the request, within 2n + 1 rounds.
  */
  lemma AscentConverges(fs: seq<Feature>, requested: map<string, int>, rounds: nat)
    requires NegationFreeAll(fs) && Rounds(fs, requested, rounds)
    requires Below(Start(fs, requested), Round(fs, requested)(Start(fs, requested)))
    ensures Fixpoint(fs, requested, After(fs, requested, rounds))
    ensures Below(Start(fs, requested), After(fs, requested, rounds))
    ensures forall c | Fixpoint(fs, requested, c) && Below(Start(fs, requested), c) ::
              Below(After(fs, requested, rounds), c)
    ensures DistinctKeys(fs) ==> rounds <= 2 * |fs| + 1
  {
    var f, start := Round(fs, requested), Start(fs, requested);
    RoundIsMonotone(fs, requested);
    KeyCount(fs);
    var m := AscentRests(f, Keys(fs), start);
    StopsAtFixpoint(fs, requested, m, rounds);
    AfterKeys(fs, requested, rounds);
    AscentFromStart(f, Keys(fs), start, rounds);
    forall c | Fixpoint(fs, requested, c) && Below(start, c) ensures Below(Iterate(f, start, rounds), c) {
      RestAboveStays(f, Keys(fs), c, start, rounds);
    }
  }

  predicate NoPushes(fs: seq<Feature>) { forall i | 0 <= i < |fs| :: fs[i].selects == [] && fs[i].implies == [] }

  predicate NoDependencies(fs: seq<Feature>) { forall i | 0 <= i < |fs| :: Strip(fs[i].dependsOn) == "" }

  lemma NoPushNoRise(fs: seq<Feature>, requested: map<string, int>, c: Config, key: string)
    requires NoPushes(fs) && key in Keys(fs)
    ensures Round(fs, requested)(c)[key] <= Start(fs, requested)[key]
  {
    RoundAt(fs, requested, c, key);
    var kind := Owner(fs, key).kind;
    forall i | 0 <= i < |fs| ensures Push(fs[i], c, key, kind) == TRI_N {
      assert fs[i].selects == [] && fs[i].implies == [];
    }
    NoFloor(fs, c, key, kind);
  }

  /** Without select and imply a round lowers the request, and every fixpoint lies below it. */
  lemma DependenciesOnlyDescend(fs: seq<Feature>, requested: map<string, int>, c: Config)
    requires NoPushes(fs)
    ensures Below(Round(fs, requested)(c), Start(fs, requested))
  {
    var c', start := Round(fs, requested)(c), Start(fs, requested);
    assert c'.Keys == Keys(fs) && start.Keys == Keys(fs);
    hide Next, Start;
    forall k | k in Keys(fs) ensures c'[k] <= start[k] {
      NoPushNoRise(fs, requested, c, k);
    }
  }

  lemma PushesOnlyAscend(fs: seq<Feature>, requested: map<string, int>, c: Config)
    requires NoDependencies(fs)
    ensures Below(Start(fs, requested), Round(fs, requested)(c))
  {
    var c', start := Round(fs, requested)(c), Start(fs, requested);
    assert c'.Keys == Keys(fs) && start.Keys == Keys(fs);
    hide Next, Start;
    forall k | k in Keys(fs) ensures start[k] <= c'[k] {
      NoDependencyNoDrop(fs, requested, c, k);
    }
  }

  lemma NoDependencyNoDrop(fs: seq<Feature>, requested: map<string, int>, c: Config, key: string)
    requires NoDependencies(fs) && key in Keys(fs)
    ensures Start(fs, requested)[key] <= Round(fs, requested)(c)[key]
  {
    RoundAt(fs, requested, c, key);
    var i :| 0 <= i < |fs| && fs[i] == Owner(fs, key);
    assert Strip(fs[i].dependsOn) == "";
  }

  /** Main result: dependencies alone, without negation, give the greatest fixpoint of all. */
  lemma DependenciesAloneConverge(fs: seq<Feature>, requested: map<string, int>, rounds: nat)
    requires NegationFreeAll(fs) && NoPushes(fs) && Rounds(fs, requested, rounds)
    ensures Fixpoint(fs, requested, After(fs, requested, rounds))
    ensures forall c | Fixpoint(fs, requested, c) :: Below(c, After(fs, requested, rounds))
    ensures DistinctKeys(fs) ==> rounds <= 2 * |fs| + 1
  {
    DependenciesOnlyDescend(fs, requested, Start(fs, requested));
    DescentConverges(fs, requested, rounds);
    forall c | Fixpoint(fs, requested, c) ensures Below(c, After(fs, requested, rounds)) {
      DependenciesOnlyDescend(fs, requested, c);
    }
  }

  /** Main result: select and imply alone give the least fixpoint, and it is above the request. */
  lemma PushesAloneConverge(fs: seq<Feature>, requested: map<string, int>, rounds: nat)
    requires NoDependencies(fs) && Rounds(fs, requested, rounds)
    ensures Fixpoint(fs, requested, After(fs, requested, rounds))
    ensures Below(Start(fs, requested), After(fs, requested, rounds))
    ensures forall c | Fixpoint(fs, requested, c) :: Below(After(fs, requested, rounds), c)
    ensures DistinctKeys(fs) ==> rounds <= 2 * |fs| + 1
  {
    PushesOnlyAscend(fs, requested, Start(fs, requested));
    AscentConverges(fs, requested, rounds);
    forall c | Fixpoint(fs, requested, c) ensures Below(After(fs, requested, rounds), c) {
      PushesOnlyAscend(fs, requested, c);
    }
  }

  // ------------------------------------------------------- and not in general

  /** A depends on B and selects it; the request is A on, B off. */
  function Contrary(): seq<Feature> {
    [Feature("A", Bool, 2, "B", ["B"], []), Feature("B", Bool, 0, "", [], [])]
  }

  function OnOff(a: Tri, b: Tri): Config { map["A" := a, "B" := b] }

  lemma ContraryParts(c: Config)
    ensures Keys(Contrary()) == {"A", "B"}
    ensures Owner(Contrary(), "A") == Contrary()[0] && Owner(Contrary(), "B") == Contrary()[1]
    ensures DepLevel(Contrary()[0], c) == Lookup(c, "B") && DepLevel(Contrary()[1], c) == TRI_Y
  {
    var fs := Contrary();
    assert fs[0].key == "A" && fs[1].key == "B";
    assert fs[..1] == [fs[0]];
    var t := TName("B");
    assert Legible([""], [Name("B")]) by { assert IsIdentifier("B"); }
    assert Yield(Print(OrLevel, Symbol("B"))) == [Name("B")];
    TextRoundTrip(Symbol("B"), [""], "", "", c);
    assert "" + Layout([""], [Name("B")]) + "" == "B" by { LayoutOfOne("B"); }
  }

  lemma LayoutOfOne(n: string)
    ensures "" + Layout([""], [Name(n)]) + "" == n
  {
    assert Layout([""], [Name(n)]) == "" + (n + Layout([], []));
  }

  lemma ContraryFloor(c: Config, key: string)
    ensures Floor(Contrary(), c, key, Bool) == if key == "B" && Lookup(c, "A") > TRI_N then TRI_Y else TRI_N
  {
    var fs := Contrary();
    assert fs[..1] == [fs[0]] && fs[..1][..0] == [];
    assert Floor(fs[..1], c, key, Bool) == Max(Floor([], c, key, Bool), Push(fs[0], c, key, Bool));
  }

  lemma ContraryRound(a: Tri, b: Tri)
    requires a != TRI_M && b != TRI_M
    ensures Round(Contrary(), map[])(OnOff(a, b)) == OnOff(b, a)
  {
    var fs, c := Contrary(), OnOff(a, b);
    ContraryParts(c);
    ContraryFloor(c, "A");
    ContraryFloor(c, "B");
    hide DepLevel, Owner, Floor, Keys;
    RoundAt(fs, map[], c, "A");
    RoundAt(fs, map[], c, "B");
    SameValues(Round(fs, map[])(c), OnOff(b, a));
  }

  lemma ContraryStart()
    ensures Start(Contrary(), map[]) == OnOff(TRI_Y, TRI_N)
  {
    ContraryParts(map[]);
    hide Keys, Owner;
    SameValues(Start(Contrary(), map[]), OnOff(TRI_Y, TRI_N));
  }

  lemma ContraryBusy(a: Tri, b: Tri)
    requires a != TRI_M && b != TRI_M && a != b
    ensures !QuietTest(Contrary(), map[])(OnOff(a, b))
    ensures !Fixpoint(Contrary(), map[], OnOff(a, b))
  {
    ContraryParts(map[]);
    ContraryRound(a, b);
    hide Keys, Owner, Round, NextValue;
    assert OnOff(a, b)["A"] != OnOff(b, a)["A"];
    if Quiet(Contrary(), map[], OnOff(a, b)) {
      QuietIsFixpoint(Contrary(), map[], OnOff(a, b));
      assert false;
    }
  }

  lemma ContraryFixpoint(a: Tri)
    requires a != TRI_M
    ensures Fixpoint(Contrary(), map[], OnOff(a, a))
  {
    ContraryParts(map[]);
    ContraryRound(a, a);
    hide Keys, Owner, Round, Contrary;
  }

  lemma ContraryMaxRounds()
    ensures MaxRounds(Contrary()) == 16
  {}

  /**
    Convergence fails in general: here two fixpoints exist, no dependency negates, and yet no round
    is a fixpoint, so the solver runs to its limit and answers A on, B off although A needs B.
  */
  lemma ContraryNeverRests(rounds: nat)
    requires Rounds(Contrary(), map[], rounds)
    ensures rounds == 16 && After(Contrary(), map[], rounds) == OnOff(TRI_Y, TRI_N)
    ensures !Fixpoint(Contrary(), map[], After(Contrary(), map[], rounds))
    ensures Fixpoint(Contrary(), map[], OnOff(TRI_Y, TRI_Y)) && Fixpoint(Contrary(), map[], OnOff(TRI_N, TRI_N))
  {
    hide Contrary, OnOff, Keys, Owner, Round, QuietTest, Start, Next, NextValue, Fixpoint, MaxRounds, AtRest;
    ContraryFixpoint(TRI_Y);
    ContraryFixpoint(TRI_N);
    ContraryStart();
    ContraryMaxRounds();
    ContraryRound(TRI_Y, TRI_N);
    ContraryRound(TRI_N, TRI_Y);
    ContraryBusy(TRI_Y, TRI_N);
    ContraryBusy(TRI_N, TRI_Y);
    TwoCycleRunsOut(Round(Contrary(), map[]), QuietTest(Contrary(), map[]), OnOff(TRI_Y, TRI_N), OnOff(TRI_N, TRI_Y),
                    16, rounds);
  }
}
