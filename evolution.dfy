/**
 * The genetic-algorithm helpers of the optimiser: random scenarios, the cubic mutation
 * multiplier, mutants and crossovers, parent selection by the cube root of a draw, the
 * fitness order, the next population and the run of highest fitness. Every draw of
 * `Math.random` (and of the unseen `getRandomId` / `getRandomArrayElement` helpers) is a
 * parameter.
 */
module Evolution {
  import opened Wrappers
  import opened JsMath
  import opened Types
  import opened TreeSpecies
  import opened Sampling

  const PopulationSize: nat := 20
  const NumElites: nat := 2
  const MaxRounds: nat := 20

  /** `Math.floor((populationSize - numElites) * 0.7)` and `* 0.1`: 12 crossovers and 1 newcomer. */
  function NumCrossovers(): (n: nat)
    ensures n == 12
  {
    ((PopulationSize - NumElites) as real * 0.7).Floor
  }

  function NumRandomNewIndividuals(): (n: nat)
    ensures n == 1
  {
    ((PopulationSize - NumElites) as real * 0.1).Floor
  }

  /** The remaining places of a population go to mutants: five. */
  function NumMutants(): (n: nat)
    ensures n == 5 && NumElites + NumCrossovers() + NumRandomNewIndividuals() + n == PopulationSize
  {
    PopulationSize - NumElites - NumCrossovers() - NumRandomNewIndividuals()
  }

  // ---------------------------------------------------------------- lodash random

  /** lodash `random(lower, upper)` with integer bounds: `lower + floor(u * (upper - lower + 1))`. */
  function RandomInt(lower: int, upper: int, u: real): (r: int)
    ensures lower <= upper && 0.0 <= u < 1.0 ==> lower <= r <= upper
  {
    UnitScale(u, (upper - lower + 1) as real);
    lower + (u * (upper - lower + 1) as real).Floor
  }

  /**
   * lodash `random(lower, upper)` with a fractional bound: `lower + u * (upper - lower + eps)`
   * capped at `upper`, where `eps` is the small power of ten lodash derives from the
   * printed length of `u`.
   */
  function RandomFloat(lower: real, upper: real, u: real, eps: real): (r: real)
    ensures lower <= upper && 0.0 <= u < 1.0 && eps >= 0.0 ==> lower <= r <= upper
  {
    UnitScale(u, upper - lower + eps);
    Min(lower + u * (upper - lower + eps), upper)
  }

  // ---------------------------------------------------------------- scenarios

  /** The draws one `generateScenario` call consumes. */
  datatype ScenarioDraw = ScenarioDraw(
    weights: nat -> real,
    numTrees: real,
    strength: real,
    coppiceChance: real,
    coppiceChanceEps: real,
    coppiceMinRadius: real,
    coppiceRadiusSpread: real)

  predicate UnitScenarioDraw(d: ScenarioDraw)
  {
    && (forall k :: 0 <= k < |Catalog()| ==> 0.0 <= d.weights(k) < 1.0)
    && 0.0 <= d.numTrees < 1.0 && 0.0 <= d.strength < 1.0
    && 0.0 <= d.coppiceChance < 1.0 && d.coppiceChanceEps >= 0.0
    && 0.0 <= d.coppiceMinRadius < 1.0 && 0.0 <= d.coppiceRadiusSpread < 1.0
  }

  /** `Math.max(0, Number((u * 1.2 - 0.2).toFixed(2)))`: about one weight in six is clamped to 0. */
  function ClampedWeight(u: real): (w: real)
    ensures w >= 0.0
    ensures 0.0 <= u < 1.0 ==> w <= 1.0
  {
    WeightBounds(u);
    Max(0.0, Fixed(u * 1.2 - 0.2, 2))
  }

  lemma WeightBounds(u: real)
    ensures 0.0 <= u < 1.0 ==> Fixed(u * 1.2 - 0.2, 2) <= 1.0
  {
    if 0.0 <= u < 1.0 {
      FixedTwoBounds(u * 1.2 - 0.2);
    }
  }

  /** One clamped weight per catalog species. */
  function InitialWeights(d: ScenarioDraw): (ws: seq<real>)
    ensures |ws| == |Catalog()|
    ensures forall k :: 0 <= k < |ws| ==> ws[k] == ClampedWeight(d.weights(k)) && ws[k] >= 0.0
    ensures NonNegative(ws)
  {
    seq(|Catalog()|, k requires 0 <= k < |Catalog()| => ClampedWeight(d.weights(k)))
  }

  /** `generateScenario` of the optimiser. */
  function GenerateScenario(d: ScenarioDraw): Scenario
  {
    Scenario(
      Normalize(InitialWeights(d)),
      RandomInt(100, 200, d.numTrees) as real,
      Fixed(d.strength, 2),
      RandomInt(5, 15, d.coppiceMinRadius) as real,
      RandomFloat(0.0, 0.2, d.coppiceChance, d.coppiceChanceEps),
      RandomInt(2, 15, d.coppiceRadiusSpread) as real)
  }

  /**
   * A generated scenario has one probability per species, NaN exactly when every clamped
   * weight is 0 and otherwise a distribution, 100 to 200 trees, a strength in [0, 1], a
   * coppice chance in [0, 0.2] and whole coppice radii in [5, 15] and [2, 15].
   */
  lemma GenerateScenarioFacts(d: ScenarioDraw)
    ensures var sc := GenerateScenario(d);
            && sc.speciesProbabilities.Length() == |Catalog()|
            && (sc.speciesProbabilities.NotANumber? <==>
                  forall k :: 0 <= k < |Catalog()| ==> InitialWeights(d)[k] == 0.0)
            && (sc.speciesProbabilities.Finite? ==> IsDistribution(sc.speciesProbabilities.values))
            && (UnitScenarioDraw(d) ==>
                  && 100.0 <= sc.numTrees <= 200.0
                  && 0.0 <= sc.declusteringStrength <= 1.0
                  && 0.0 <= sc.coppiceChance <= 0.2
                  && 5.0 <= sc.coppiceMinRadius <= 15.0
                  && 2.0 <= sc.coppiceRadiusSpread <= 15.0)
  {
    var ws := InitialWeights(d);
    ZeroSumIff(ws);
    NormalizedDistribution(ws);
    if UnitScenarioDraw(d) {
      FixedTwoBounds(d.strength);
    }
  }

  /** Entries in [0, 1] summing to 1. */
  predicate IsDistribution(ps: seq<real>)
  {
    Sum(ps) == 1.0 && forall i :: 0 <= i < |ps| ==> 0.0 <= ps[i] <= 1.0
  }

  lemma NormalizedDistribution(ws: seq<real>)
    requires NonNegative(ws)
    ensures Normalize(ws).Finite? ==> IsDistribution(Normalize(ws).values)
  {
    if Normalize(ws).Finite? {
      NormalizedSumsToOne(ws);
      forall i | 0 <= i < |ws| ensures 0.0 <= Normalize(ws).values[i] <= 1.0 {
        NormalizedInUnit(ws, i);
      }
    }
  }

  // ---------------------------------------------------------------- vectors that may hold NaN

  /** Every entry is a number. */
  predicate AllNumbers(xs: seq<Option<real>>)
  {
    forall i :: 0 <= i < |xs| ==> xs[i].Some?
  }

  function Values(xs: seq<Option<real>>): (vs: seq<real>)
    requires AllNumbers(xs)
    ensures |vs| == |xs| && forall i :: 0 <= i < |xs| ==> Some(vs[i]) == xs[i]
  {
    seq(|xs|, i requires 0 <= i < |xs| => xs[i].value)
  }

  /**
   * `normalizeSpeciesProbabilities` on a vector whose entries may be NaN: one NaN makes the
   * sum, and so every quotient, NaN.
   */
  function NormalizeEntries(xs: seq<Option<real>>): (p: Probabilities)
    ensures p.Length() == |xs|
    ensures p.Finite? ==> AllNumbers(xs) && p == Normalize(Values(xs))
  {
    if AllNumbers(xs) then Normalize(Values(xs)) else NotANumber(|xs|)
  }

  lemma NormalizeEntriesDistribution(xs: seq<Option<real>>)
    requires forall i :: 0 <= i < |xs| && xs[i].Some? ==> xs[i].value >= 0.0
    ensures NormalizeEntries(xs).Finite? ==> IsDistribution(NormalizeEntries(xs).values)
  {
    if AllNumbers(xs) {
      NormalizedDistribution(Values(xs));
    }
  }

  // ---------------------------------------------------------------- mutation

  /** x^3 stays in [-1, 1) for x in [-1, 1). */
  lemma CubeBounds(x: real)
    requires -1.0 <= x < 1.0
    ensures -1.0 <= Pow(x, 3) < 1.0
  {
    assert Pow(x, 3) == x * (x * x) by {
      assert Pow(x, 1) == x;
      assert Pow(x, 2) == x * x;
    }
    var y := if x < 0.0 then -x else x;
    assert 0.0 <= y <= 1.0;
    assert 0.0 <= y * y <= 1.0 by {
      assert y * y <= 1.0 * y;
    }
    assert y * (y * y) <= 1.0 * (y * y);
    if x >= 0.0 {
      assert x * (x * x) <= x * 1.0;
    } else {
      assert x * (x * x) == -(y * (y * y));
    }
  }

  /** `Math.pow((u - 0.5) * 2, 3) + 1`: in [0, 2) for a draw of [0, 1), 1 at u = 0.5. */
  function MutationMultiplier(u: real): (m: real)
    ensures 0.0 <= u < 1.0 ==> 0.0 <= m < 2.0
    ensures u == 0.5 ==> m == 1.0
  {
    MultiplierBounds(u);
    Pow((u - 0.5) * 2.0, 3) + 1.0
  }

  lemma MultiplierBounds(u: real)
    ensures 0.0 <= u < 1.0 ==> -1.0 <= Pow((u - 0.5) * 2.0, 3) < 1.0
    ensures u == 0.5 ==> Pow((u - 0.5) * 2.0, 3) == 0.0
  {
    if 0.0 <= u < 1.0 {
      CubeBounds((u - 0.5) * 2.0);
    }
    if u == 0.5 {
      assert Pow(0.0, 3) == 0.0 * Pow(0.0, 2);
    }
  }

  /** The draws one `generateMutantFromParent` call consumes: one per scalar field and one per probability. */
  datatype MutationDraws = MutationDraws(
    numTrees: real,
    declusteringStrength: real,
    coppiceMinRadius: real,
    coppiceChance: real,
    coppiceRadiusSpread: real,
    probabilities: nat -> real)

  predicate UnitMutationDraws(d: MutationDraws, n: nat)
  {
    && 0.0 <= d.numTrees < 1.0 && 0.0 <= d.declusteringStrength < 1.0
    && 0.0 <= d.coppiceMinRadius < 1.0 && 0.0 <= d.coppiceChance < 1.0
    && 0.0 <= d.coppiceRadiusSpread < 1.0
    && forall i :: 0 <= i < n ==> 0.0 <= d.probabilities(i) < 1.0
  }

  /** `probability * getRandomMutationMultiplier()` per entry, NaN staying NaN. */
  function ScaledEntries(ps: Probabilities, draws: nat -> real): (xs: seq<Option<real>>)
    ensures |xs| == ps.Length()
    ensures forall i :: 0 <= i < |xs| ==> xs[i].Some? == ps.Entry(i).Some?
  {
    seq(ps.Length(), i requires 0 <= i < ps.Length() =>
      if ps.Entry(i).Some? then Some(ps.Entry(i).value * MutationMultiplier(draws(i))) else None)
  }

  /** `generateMutantFromParent`: every scalar field scaled, the coppice chance capped at 1, the probabilities scaled and renormalised. */
  function Mutant(parent: Scenario, d: MutationDraws): Scenario
  {
    Scenario(
      NormalizeEntries(ScaledEntries(parent.speciesProbabilities, d.probabilities)),
      parent.numTrees * MutationMultiplier(d.numTrees),
      parent.declusteringStrength * MutationMultiplier(d.declusteringStrength),
      parent.coppiceMinRadius * MutationMultiplier(d.coppiceMinRadius),
      Min(1.0, parent.coppiceChance * MutationMultiplier(d.coppiceChance)),
      parent.coppiceRadiusSpread * MutationMultiplier(d.coppiceRadiusSpread))
  }

  /** A non-negative field scaled by a multiplier of [0, 2) lands in [0, 2 x field], strictly below when positive. */
  lemma ScaledField(x: real, u: real, y: real)
    requires x >= 0.0 && 0.0 <= u < 1.0 && y == x * MutationMultiplier(u)
    ensures 0.0 <= y <= 2.0 * x
    ensures x > 0.0 ==> y < 2.0 * x
  {
    var m := MutationMultiplier(u);
    assert x * m <= x * 2.0;
    if x > 0.0 {
      assert x * m < x * 2.0;
    }
  }

  predicate NonNegativeScenario(sc: Scenario)
  {
    && sc.numTrees >= 0.0 && sc.declusteringStrength >= 0.0 && sc.coppiceMinRadius >= 0.0
    && sc.coppiceChance >= 0.0 && sc.coppiceRadiusSpread >= 0.0
    && (sc.speciesProbabilities.Finite? ==> NonNegative(sc.speciesProbabilities.values))
  }

  /**
   * A mutant of a non-negative scenario stays non-negative, at most doubles each scalar
   * field, and has a coppice chance of at most 1.
   */
  lemma MutantScalars(parent: Scenario, d: MutationDraws)
    requires NonNegativeScenario(parent)
    requires UnitMutationDraws(d, 0)
    ensures var m := Mutant(parent, d);
            && 0.0 <= m.numTrees <= 2.0 * parent.numTrees
            && 0.0 <= m.declusteringStrength <= 2.0 * parent.declusteringStrength
            && 0.0 <= m.coppiceMinRadius <= 2.0 * parent.coppiceMinRadius
            && 0.0 <= m.coppiceRadiusSpread <= 2.0 * parent.coppiceRadiusSpread
            && 0.0 <= m.coppiceChance <= 1.0 && m.coppiceChance <= 2.0 * parent.coppiceChance
  {
    var m := Mutant(parent, d);
    ScaledField(parent.numTrees, d.numTrees, m.numTrees);
    ScaledField(parent.declusteringStrength, d.declusteringStrength, m.declusteringStrength);
    ScaledField(parent.coppiceMinRadius, d.coppiceMinRadius, m.coppiceMinRadius);
    ScaledField(parent.coppiceRadiusSpread, d.coppiceRadiusSpread, m.coppiceRadiusSpread);
    var c := parent.coppiceChance * MutationMultiplier(d.coppiceChance);
    ScaledField(parent.coppiceChance, d.coppiceChance, c);
  }

  /**
   * A mutant's vector has the parent's length; of non-negative entries it is NaN or a
   * distribution, and a NaN parent vector stays NaN.
   */
  lemma MutantProbabilities(parent: Scenario, d: MutationDraws)
    requires NonNegativeScenario(parent)
    requires UnitMutationDraws(d, parent.speciesProbabilities.Length())
    ensures var ps := Mutant(parent, d).speciesProbabilities;
            && ps.Length() == parent.speciesProbabilities.Length()
            && (parent.speciesProbabilities.NotANumber? ==> ps.NotANumber?)
            && (ps.Finite? ==> IsDistribution(ps.values))
  {
    var xs := ScaledEntries(parent.speciesProbabilities, d.probabilities);
    forall i | 0 <= i < |xs| && xs[i].Some? ensures xs[i].value >= 0.0 {
      var x := parent.speciesProbabilities.values[i];
      ScaledField(x, d.probabilities(i), x * MutationMultiplier(d.probabilities(i)));
    }
    NormalizeEntriesDistribution(xs);
    if parent.speciesProbabilities.NotANumber? && |xs| > 0 {
      assert xs[0].None?;
    }
  }

  // ---------------------------------------------------------------- crossover

  /** For each field and each probability, whether `getRandomArrayElement([scenario1, scenario2])` gave the first parent. */
  datatype CrossoverPicks = CrossoverPicks(
    numTrees: bool,
    declusteringStrength: bool,
    coppiceMinRadius: bool,
    coppiceChance: bool,
    coppiceRadiusSpread: bool,
    probabilities: nat -> bool)

  /** Entry `i` of the chosen parent, over the length of the first parent's vector. */
  function RecombinedEntries(s1: Scenario, s2: Scenario, picks: nat -> bool): (xs: seq<Option<real>>)
    ensures |xs| == s1.speciesProbabilities.Length()
    ensures forall i :: 0 <= i < |xs| ==>
              xs[i] == s1.speciesProbabilities.Entry(i) || xs[i] == s2.speciesProbabilities.Entry(i)
  {
    seq(s1.speciesProbabilities.Length(), i requires 0 <= i < s1.speciesProbabilities.Length() =>
      (if picks(i) then s1 else s2).speciesProbabilities.Entry(i))
  }

  /** The child before its mutation: each field from one parent, the probabilities renormalised. */
  function Recombine(s1: Scenario, s2: Scenario, picks: CrossoverPicks): Scenario
  {
    Scenario(
      NormalizeEntries(RecombinedEntries(s1, s2, picks.probabilities)),
      (if picks.numTrees then s1 else s2).numTrees,
      (if picks.declusteringStrength then s1 else s2).declusteringStrength,
      (if picks.coppiceMinRadius then s1 else s2).coppiceMinRadius,
      (if picks.coppiceChance then s1 else s2).coppiceChance,
      (if picks.coppiceRadiusSpread then s1 else s2).coppiceRadiusSpread)
  }

  /**
   * Before mutation, every scalar field of the child is that field of one parent, and the
   * child's vector is the renormalisation of entries each taken from the same index of
   * one parent; of non-negative parents it is NaN or a distribution.
   */
  lemma RecombineFacts(s1: Scenario, s2: Scenario, picks: CrossoverPicks)
    ensures var c := Recombine(s1, s2, picks);
            && (c.numTrees == s1.numTrees || c.numTrees == s2.numTrees)
            && (c.declusteringStrength == s1.declusteringStrength || c.declusteringStrength == s2.declusteringStrength)
            && (c.coppiceMinRadius == s1.coppiceMinRadius || c.coppiceMinRadius == s2.coppiceMinRadius)
            && (c.coppiceChance == s1.coppiceChance || c.coppiceChance == s2.coppiceChance)
            && (c.coppiceRadiusSpread == s1.coppiceRadiusSpread || c.coppiceRadiusSpread == s2.coppiceRadiusSpread)
            && c.speciesProbabilities.Length() == s1.speciesProbabilities.Length()
            && (NonNegativeScenario(s1) && NonNegativeScenario(s2) ==>
                  NonNegativeScenario(c) &&
                  (c.speciesProbabilities.Finite? ==> IsDistribution(c.speciesProbabilities.values)))
  {
    var xs := RecombinedEntries(s1, s2, picks.probabilities);
    if NonNegativeScenario(s1) && NonNegativeScenario(s2) {
      forall i | 0 <= i < |xs| && xs[i].Some? ensures xs[i].value >= 0.0 {
        assert xs[i] == s1.speciesProbabilities.Entry(i) || xs[i] == s2.speciesProbabilities.Entry(i);
      }
      NormalizeEntriesDistribution(xs);
    }
  }

  /** `generateCrossoverFromParents`: recombine, then mutate. */
  function Crossover(s1: Scenario, s2: Scenario, picks: CrossoverPicks, d: MutationDraws): Scenario
  {
    Mutant(Recombine(s1, s2, picks), d)
  }

  // ---------------------------------------------------------------- fitness order

  predicate SortedByFitness(rs: seq<Run>)
  {
    forall i, j :: 0 <= i < j < |rs| ==> rs[i].fitness <= rs[j].fitness
  }

  /** Insert `r` after every run of fitness at most its own, as a stable sort does. */
  function InsertByFitness(sorted: seq<Run>, r: Run): (s: seq<Run>)
    ensures |s| == |sorted| + 1
  {
    if sorted == [] || sorted[|sorted| - 1].fitness <= r.fitness then sorted + [r]
    else InsertByFitness(sorted[..|sorted| - 1], r) + [sorted[|sorted| - 1]]
  }

  /** Inserting adds exactly `r`. */
  lemma {:induction false} InsertByFitnessMultiset(sorted: seq<Run>, r: Run)
    ensures multiset(InsertByFitness(sorted, r)) == multiset(sorted) + multiset{r}
  {
    if !(sorted == [] || sorted[|sorted| - 1].fitness <= r.fitness) {
      var init := sorted[..|sorted| - 1];
      var last := sorted[|sorted| - 1];
      assert sorted == init + [last];
      InsertByFitnessMultiset(init, r);
    }
  }

  /** A bound on every fitness of `sorted` and on `r` bounds every fitness after the insertion. */
  lemma {:induction false} InsertByFitnessBound(sorted: seq<Run>, r: Run, bound: real)
    requires forall k :: 0 <= k < |sorted| ==> sorted[k].fitness <= bound
    requires r.fitness <= bound
    ensures forall k :: 0 <= k < |sorted| + 1 ==> InsertByFitness(sorted, r)[k].fitness <= bound
  {
    if !(sorted == [] || sorted[|sorted| - 1].fitness <= r.fitness) {
      InsertByFitnessBound(sorted[..|sorted| - 1], r, bound);
    }
  }

  /** Inserting into an ascending order keeps it ascending. */
  lemma {:induction false} InsertByFitnessFacts(sorted: seq<Run>, r: Run)
    requires SortedByFitness(sorted)
    ensures SortedByFitness(InsertByFitness(sorted, r))
    ensures multiset(InsertByFitness(sorted, r)) == multiset(sorted) + multiset{r}
  {
    InsertByFitnessMultiset(sorted, r);
    if !(sorted == [] || sorted[|sorted| - 1].fitness <= r.fitness) {
      var init := sorted[..|sorted| - 1];
      var last := sorted[|sorted| - 1];
      var front := InsertByFitness(init, r);
      var s := InsertByFitness(sorted, r);
      assert s == front + [last];
      InsertByFitnessFacts(init, r);
      InsertByFitnessBound(init, r, last.fitness);
      forall i, j | 0 <= i < j < |s| ensures s[i].fitness <= s[j].fitness {
        if j < |front| {
          assert s[i] == front[i] && s[j] == front[j];
        } else {
          assert s[i] == front[i] && s[j] == last;
        }
      }
    }
  }

  /** lodash `sortBy(runs, 'fitness')`: insertion of each run in turn. */
  function SortByFitness(rs: seq<Run>): (s: seq<Run>)
    ensures |s| == |rs|
  {
    if rs == [] then [] else InsertByFitness(SortByFitness(rs[..|rs| - 1]), rs[|rs| - 1])
  }

  /** The fitness order is ascending and a permutation of the runs. */
  lemma {:induction false} SortByFitnessFacts(rs: seq<Run>)
    ensures SortedByFitness(SortByFitness(rs))
    ensures multiset(SortByFitness(rs)) == multiset(rs)
  {
    if rs != [] {
      var init := rs[..|rs| - 1];
      assert rs == init + [rs[|rs| - 1]];
      SortByFitnessFacts(init);
      InsertByFitnessFacts(SortByFitness(init), rs[|rs| - 1]);
    }
  }

  /** The last run of the fitness order has the highest fitness of all. */
  lemma {:induction false} LastIsFittest(rs: seq<Run>)
    requires |rs| > 0
    ensures var s := SortByFitness(rs);
            forall r :: r in rs ==> r.fitness <= s[|s| - 1].fitness
  {
    var s := SortByFitness(rs);
    SortByFitnessFacts(rs);
    forall r | r in rs ensures r.fitness <= s[|s| - 1].fitness {
      assert r in multiset(s);
      var k :| 0 <= k < |s| && s[k] == r;
    }
  }

  /** `take(reverse(s), numElites)`: the last two places of `s`, the last first. */
  function TopPlaces(s: seq<Run>): (e: seq<Run>)
    ensures |e| == if |s| < NumElites then |s| else NumElites
  {
    if |s| == 0 then []
    else if |s| == 1 then [s[0]]
    else [s[|s| - 1], s[|s| - 2]]
  }

  /** The top places hold the same runs as the last `|e|` places of `s`. */
  lemma TopPlacesAreSuffix(s: seq<Run>)
    ensures var e := TopPlaces(s);
            multiset(e) == multiset(s[|s| - |e|..])
  {
    var e := TopPlaces(s);
    var top := s[|s| - |e|..];
    if |e| == 2 {
      assert e == [top[1], top[0]] && top == [top[0], top[1]];
    } else if |e| == 1 {
      assert e == [top[0]] && top == [top[0]];
    }
  }

  /** Removing the top places from `s` leaves the runs of the rest of it. */
  lemma TopPlacesRest(s: seq<Run>)
    ensures var e := TopPlaces(s);
            multiset(e) <= multiset(s) && multiset(s) - multiset(e) == multiset(s[..|s| - |e|])
  {
    var e := TopPlaces(s);
    TopPlacesAreSuffix(s);
    var n := |e|;
    assert s == s[..|s| - n] + s[|s| - n..];
  }

  /** In an ascending order, every run below place `m` is at most as fit as the run there. */
  lemma BelowPlace(s: seq<Run>, m: nat)
    requires SortedByFitness(s) && m < |s|
    ensures forall r :: r in multiset(s[..m]) ==> r.fitness <= s[m].fitness
  {
    forall r: Run | r in multiset(s[..m]) ensures r.fitness <= s[m].fitness {
      var k :| 0 <= k < m && s[..m][k] == r;
      assert s[k] == r;
    }
  }

  /** Of an ascending order, the top places are in it, fittest first, and nothing else beats the weaker of them. */
  lemma TopPlacesFacts(s: seq<Run>)
    requires SortedByFitness(s)
    ensures var e := TopPlaces(s);
            && multiset(e) <= multiset(s)
            && (forall i, j :: 0 <= i < j < |e| ==> e[j].fitness <= e[i].fitness)
            && (|e| > 0 ==> forall r :: r in multiset(s) - multiset(e) ==> r.fitness <= e[|e| - 1].fitness)
  {
    TopPlacesRest(s);
    var n := |s|;
    if n == 1 {
      assert TopPlaces(s) == [s[0]];
      BelowPlace(s, 0);
    } else if n >= 2 {
      assert TopPlaces(s) == [s[n - 1], s[n - 2]];
      assert s[n - 2].fitness <= s[n - 1].fitness;
      BelowPlace(s, n - 2);
    }
  }

  /** `take(reverse(sortBy(runs, 'fitness')), numElites)`: the two fittest runs, fittest first. */
  function Elites(rs: seq<Run>): (e: seq<Run>)
    ensures |e| == if |rs| < NumElites then |rs| else NumElites
  {
    TopPlaces(SortByFitness(rs))
  }

  /** The elites are runs of the table, fittest first, and no other run is fitter than the weaker elite. */
  lemma ElitesAreFittest(rs: seq<Run>)
    ensures var e := Elites(rs);
            && multiset(e) <= multiset(rs)
            && (forall i, j :: 0 <= i < j < |e| ==> e[j].fitness <= e[i].fitness)
            && (|e| > 0 ==> forall r :: r in multiset(rs) - multiset(e) ==> r.fitness <= e[|e| - 1].fitness)
  {
    SortByFitnessFacts(rs);
    TopPlacesFacts(SortByFitness(rs));
  }

  // ---------------------------------------------------------------- parent selection

  function Cube(x: real): real { x * x * x }

  lemma CubeMonotone(a: real, b: real)
    requires 0.0 <= a <= b
    ensures Cube(a) <= Cube(b)
  {
    assert a * a <= b * b by {
      assert a * a <= a * b <= b * b;
    }
    assert a * a * a <= b * b * a <= b * b * b;
  }

  /** The first index from `k` on whose upper cube bound exceeds `u`, the last index otherwise. */
  function ParentIndexFrom(u: real, k: nat): (r: nat)
    requires k < PopulationSize
    ensures k <= r < PopulationSize
    decreases PopulationSize - k
  {
    if k == PopulationSize - 1 then k
    else if u < Cube((k + 1) as real / 20.0) then k
    else ParentIndexFrom(u, k + 1)
  }

  /** The search keeps a lower bracket it starts from and ends below the upper bracket for draws under 1. */
  lemma {:induction false} ParentIndexFromBracket(u: real, k: nat)
    requires k < PopulationSize
    ensures var r := ParentIndexFrom(u, k);
            && (Cube(k as real / 20.0) <= u ==> Cube(r as real / 20.0) <= u)
            && (u < 1.0 ==> u < Cube((r + 1) as real / 20.0))
    decreases PopulationSize - k
  {
    if k == PopulationSize - 1 {
      assert Cube((k + 1) as real / 20.0) == 1.0;
    } else if u >= Cube((k + 1) as real / 20.0) {
      ParentIndexFromBracket(u, k + 1);
    }
  }

  /** `Math.floor(Math.pow(u, 1/3) * populationSize)` on exact reals; `ParentIndexBracket` characterises it. */
  function ParentIndex(u: real): (k: nat)
    ensures k < PopulationSize
  {
    ParentIndexFrom(u, 0)
  }

  /** For a draw of [0, 1) the index `k` has (k/20)^3 <= u < ((k+1)/20)^3. */
  lemma ParentIndexBracket(u: real)
    requires 0.0 <= u < 1.0
    ensures var k := ParentIndex(u);
            Cube(k as real / 20.0) <= u < Cube((k + 1) as real / 20.0)
  {
    assert Cube(0 as real / 20.0) == 0.0;
    ParentIndexFromBracket(u, 0);
  }

  /** The cube bracket fixes the index: it is the floor of 20 times the cube root. */
  lemma ParentIndexUnique(u: real, k: nat)
    requires k < PopulationSize && 0.0 <= u < 1.0
    requires Cube(k as real / 20.0) <= u < Cube((k + 1) as real / 20.0)
    ensures ParentIndex(u) == k
  {
    var r := ParentIndex(u);
    ParentIndexBracket(u);
    if r < k {
      CubeMonotone((r + 1) as real / 20.0, k as real / 20.0);
    } else if r > k {
      CubeMonotone((k + 1) as real / 20.0, r as real / 20.0);
    }
  }

  /** `selectRandomParentByFitness`: the run at that index of the fitness order; undefined past the end. */
  function SelectParent(rs: seq<Run>, u: real): (p: Option<Run>)
    ensures p.Some? <==> ParentIndex(u) < |rs|
    ensures p.Some? ==> p.value in rs && p.value == SortByFitness(rs)[ParentIndex(u)]
  {
    var k := ParentIndex(u);
    if k < |rs| then
      SortByFitnessFacts(rs);
      assert SortByFitness(rs)[k] in multiset(rs);
      Some(SortByFitness(rs)[k])
    else None
  }

  /** Of draws of [0, 1), the fitter half of a full population is picked for u >= 1/8. */
  lemma FitterHalfLikelier(rs: seq<Run>, u: real)
    requires |rs| == PopulationSize && 0.125 <= u < 1.0
    ensures ParentIndex(u) >= 10
  {
    ParentIndexBracket(u);
  }

  // ---------------------------------------------------------------- the next population

  /** `getEmptyRun()` carrying the scenario of a new member. */
  function EmptyRun(id: int, scenario: Scenario): (r: Run)
    ensures r.id == id && r.scenario == scenario
    ensures !r.isAllocated && !r.isComplete && r.fitness == 0.0 && r.carbon.None?
  {
    Run(id, YearlyData([0.0], [0.0], [0.0], [0.0]), [], [], [], scenario, 0.0, None, 0.0, 0.0, false, false)
  }

  /** The draws one `selectNewPopulation` call consumes. */
  datatype PopulationDraws = PopulationDraws(
    ids: nat -> int,
    newcomers: nat -> ScenarioDraw,
    parents: nat -> (real, real),
    picks: nat -> CrossoverPicks,
    crossoverMutation: nat -> MutationDraws,
    eliteChoice: nat -> nat,
    mutation: nat -> MutationDraws)

  /** A member of `newRunPartials`: an elite kept whole, or a new scenario. */
  datatype Partial = Kept(run: Run) | Fresh(scenario: Scenario)

  /** `{...getEmptyRun(), ...partial}`: elites keep every field, new scenarios get an empty run. */
  function Complete(p: Partial, id: int): (r: Run)
    ensures p.Kept? ==> r == p.run
    ensures p.Fresh? ==> r == EmptyRun(id, p.scenario)
  {
    match p
    case Kept(run) => run
    case Fresh(sc) => EmptyRun(id, sc)
  }

  /** Both parent draws of crossover `k` index into the table. */
  predicate ParentPairInRange(rs: seq<Run>, d: PopulationDraws, k: nat)
  {
    ParentIndex(d.parents(k).0) < |rs| && ParentIndex(d.parents(k).1) < |rs|
  }

  /** Every parent draw of the crossovers indexes into the table. */
  predicate ParentsInRange(rs: seq<Run>, d: PopulationDraws)
  {
    forall k :: 0 <= k < NumCrossovers() ==> ParentPairInRange(rs, d, k)
  }

  /** A table of `populationSize` runs or more has every parent index inside it. */
  lemma FullTableParentsInRange(rs: seq<Run>, d: PopulationDraws)
    requires |rs| >= PopulationSize
    ensures ParentsInRange(rs, d)
  {
  }

  /** Crossover child `k`, of the two parents its draws select. */
  function CrossoverChild(rs: seq<Run>, d: PopulationDraws, k: nat): Scenario
    requires ParentPairInRange(rs, d, k)
  {
    var p1 := SelectParent(rs, d.parents(k).0).value;
    var p2 := SelectParent(rs, d.parents(k).1).value;
    Crossover(p1.scenario, p2.scenario, d.picks(k), d.crossoverMutation(k))
  }

  /** Mutant `k`, of the elite `eliteChoice(k)` picks. */
  function EliteMutant(elites: seq<Run>, d: PopulationDraws, k: nat): Scenario
    requires |elites| > 0
  {
    Mutant(elites[d.eliteChoice(k) % |elites|].scenario, d.mutation(k))
  }

  /** Place `k` of a later round's `newRunPartials`: elites, then crossovers, newcomers and mutants. */
  function LaterSlot(rs: seq<Run>, d: PopulationDraws, k: nat): Partial
    requires |Elites(rs)| > 0 && ParentsInRange(rs, d)
  {
    var elites := Elites(rs);
    var n := |elites|;
    if k < n then Kept(elites[k])
    else if k < n + NumCrossovers() then Fresh(CrossoverChild(rs, d, k - n))
    else if k < n + NumCrossovers() + NumRandomNewIndividuals() then
      Fresh(GenerateScenario(d.newcomers(k - n - NumCrossovers())))
    else Fresh(EliteMutant(elites, d, k - n - NumCrossovers() - NumRandomNewIndividuals()))
  }

  /** The length of a later round's population: the elites and 18 new members. */
  function LaterCount(rs: seq<Run>): nat
  {
    |Elites(rs)| + NumCrossovers() + NumRandomNewIndividuals() + NumMutants()
  }

  /**
   * `newRunPartials`: in the first round `populationSize` generated scenarios; later, the
   * slots above, or `None` where the source throws: no run to take an elite from, or a
   * parent index past the end of the table.
   */
  function Partials(round: int, rs: seq<Run>, d: PopulationDraws): (ps: Option<seq<Partial>>)
  {
    if round == 1 then
      Some(seq(PopulationSize, k requires 0 <= k < PopulationSize => Fresh(GenerateScenario(d.newcomers(k)))))
    else if |Elites(rs)| == 0 || !ParentsInRange(rs, d) then None
    else Some(seq(LaterCount(rs), k requires 0 <= k < LaterCount(rs) => LaterSlot(rs, d, k)))
  }

  /** `selectNewPopulation`'s new table: each partial completed with the id drawn for its place. */
  function NewPopulation(round: int, rs: seq<Run>, d: PopulationDraws): Option<seq<Run>>
  {
    var ps := Partials(round, rs, d);
    if ps.None? then None
    else Some(seq(|ps.value|, k requires 0 <= k < |ps.value| => Complete(ps.value[k], d.ids(k))))
  }

  /** `times(count, () => push({scenario: generateScenario()}))`, drawing newcomer `i` for the `i`-th push. */
  method PushNewcomers(partials: seq<Partial>, d: PopulationDraws, count: nat) returns (r: seq<Partial>)
    ensures r == partials + seq(count, i requires 0 <= i < count => Fresh(GenerateScenario(d.newcomers(i))))
  {
    r := partials;
    var k := 0;
    while k < count
      invariant 0 <= k <= count
      invariant r == partials + seq(k, i requires 0 <= i < k => Fresh(GenerateScenario(d.newcomers(i))))
    {
      r := r + [Fresh(GenerateScenario(d.newcomers(k)))];
      k := k + 1;
    }
  }

  /** `elites.forEach(elite => push(elite))`. */
  method PushElites(partials: seq<Partial>, elites: seq<Run>) returns (r: seq<Partial>)
    ensures r == partials + seq(|elites|, i requires 0 <= i < |elites| => Kept(elites[i]))
  {
    r := partials;
    var k := 0;
    while k < |elites|
      invariant 0 <= k <= |elites|
      invariant r == partials + seq(k, i requires 0 <= i < k => Kept(elites[i]))
    {
      r := r + [Kept(elites[k])];
      k := k + 1;
    }
  }

  /**
   * The crossover `times` loop; `None` where the source throws on a parent past the end of
   * the table, which happens exactly when some parent draw is out of range.
   */
  method PushCrossovers(partials: seq<Partial>, rs: seq<Run>, d: PopulationDraws) returns (r: Option<seq<Partial>>)
    ensures r.Some? <==> ParentsInRange(rs, d)
    ensures r.Some? ==> |r.value| == |partials| + NumCrossovers() && r.value[..|partials|] == partials
    ensures r.Some? ==> forall i :: 0 <= i < NumCrossovers() ==> r.value[|partials| + i] == Fresh(CrossoverChild(rs, d, i))
  {
    var acc := partials;
    ghost var children: seq<Partial> := [];
    var c := 0;
    while c < NumCrossovers()
      invariant 0 <= c <= NumCrossovers()
      invariant acc == partials + children && |children| == c
      invariant forall i :: 0 <= i < c ==> ParentPairInRange(rs, d, i)
      invariant forall i :: 0 <= i < c ==> children[i] == Fresh(CrossoverChild(rs, d, i))
    {
      if !ParentPairInRange(rs, d, c) {
        return None;
      }
      var child := Fresh(CrossoverChild(rs, d, c));
      acc := acc + [child];
      children := children + [child];
      c := c + 1;
    }
    assert acc[..|partials|] == partials;
    assert forall i :: 0 <= i < NumCrossovers() ==> acc[|partials| + i] == children[i];
    return Some(acc);
  }

  /** The mutant `times` loop: `generateMutantFromParent` of the elite `getRandomArrayElement` picks. */
  method PushMutants(partials: seq<Partial>, elites: seq<Run>, d: PopulationDraws) returns (r: seq<Partial>)
    requires |elites| > 0
    ensures r == partials + seq(NumMutants(), i requires 0 <= i < NumMutants() => Fresh(EliteMutant(elites, d, i)))
  {
    r := partials;
    var k := 0;
    while k < NumMutants()
      invariant 0 <= k <= NumMutants()
      invariant r == partials + seq(k, i requires 0 <= i < k => Fresh(EliteMutant(elites, d, i)))
    {
      r := r + [Fresh(EliteMutant(elites, d, k))];
      k := k + 1;
    }
  }

  /** The four pushes of a later round, laid end to end, are the slots of that round. */
  lemma LaterSlots(rs: seq<Run>, d: PopulationDraws, withCrossovers: seq<Partial>, ps: seq<Partial>)
    requires |Elites(rs)| > 0 && ParentsInRange(rs, d)
    requires var n := |Elites(rs)|;
             && |withCrossovers| == n + NumCrossovers()
             && (forall i :: 0 <= i < n ==> withCrossovers[i] == Kept(Elites(rs)[i]))
             && (forall i :: 0 <= i < NumCrossovers() ==> withCrossovers[n + i] == Fresh(CrossoverChild(rs, d, i)))
    requires ps == withCrossovers
                   + seq(NumRandomNewIndividuals(), i requires 0 <= i < NumRandomNewIndividuals() => Fresh(GenerateScenario(d.newcomers(i))))
                   + seq(NumMutants(), i requires 0 <= i < NumMutants() => Fresh(EliteMutant(Elites(rs), d, i)))
    ensures ps == seq(LaterCount(rs), k requires 0 <= k < LaterCount(rs) => LaterSlot(rs, d, k))
  {
    var n := |Elites(rs)|;
    forall k | 0 <= k < LaterCount(rs) ensures ps[k] == LaterSlot(rs, d, k) {
      if k < n {
        assert ps[k] == withCrossovers[k];
      } else if k < n + NumCrossovers() {
        assert ps[k] == withCrossovers[n + (k - n)];
      }
    }
  }

  /**
   * `selectNewPopulation`'s pushes onto `newRunPartials`; `None` where the source throws: on
   * `elites[0].id` of an empty table, or on the scenario of a parent index past its end.
   */
  method BuildPartials(round: int, rs: seq<Run>, d: PopulationDraws) returns (ps: Option<seq<Partial>>)
    ensures ps == Partials(round, rs, d)
  {
    if round == 1 {
      var initial := PushNewcomers([], d, PopulationSize);
      assert initial == seq(PopulationSize, k requires 0 <= k < PopulationSize => Fresh(GenerateScenario(d.newcomers(k))));
      return Some(initial);
    }
    if |Elites(rs)| == 0 {
      return None;
    }
    ps := BuildLaterPartials(rs, d);
  }

  /** The pushes of a later round once an elite exists: the elites, the crossovers, the newcomer and the mutants. */
  method BuildLaterPartials(rs: seq<Run>, d: PopulationDraws) returns (ps: Option<seq<Partial>>)
    requires |Elites(rs)| > 0
    ensures ps.Some? <==> ParentsInRange(rs, d)
    ensures ps.Some? ==> ps.value == seq(LaterCount(rs), k requires 0 <= k < LaterCount(rs) => LaterSlot(rs, d, k))
  {
    var elites := Elites(rs);
    var withElites := PushElites([], elites);
    var withCrossovers := PushCrossovers(withElites, rs, d);
    if withCrossovers.None? {
      return None;
    }
    var withNewcomer := PushNewcomers(withCrossovers.value, d, NumRandomNewIndividuals());
    var all := PushMutants(withNewcomer, elites, d);
    forall i | 0 <= i < |elites| ensures withCrossovers.value[i] == Kept(elites[i]) {
      assert withCrossovers.value[i] == withCrossovers.value[..|withElites|][i];
    }
    LaterSlots(rs, d, withCrossovers.value, all);
    return Some(all);
  }

  /** `selectNewPopulation`: the partials, each spread over `getEmptyRun()` with the id drawn for its place. */
  method SelectNewPopulation(round: int, rs: seq<Run>, d: PopulationDraws) returns (newRuns: Option<seq<Run>>)
    ensures newRuns == NewPopulation(round, rs, d)
  {
    var ps := BuildPartials(round, rs, d);
    if ps.None? {
      return None;
    }
    newRuns := Some(seq(|ps.value|, k requires 0 <= k < |ps.value| => Complete(ps.value[k], d.ids(k))));
  }

  /** In the first round the population is `populationSize` fresh, unallocated runs. */
  lemma FirstRoundPopulation(rs: seq<Run>, d: PopulationDraws)
    ensures var p := NewPopulation(1, rs, d);
            && p.Some? && |p.value| == PopulationSize
            && forall k :: 0 <= k < PopulationSize ==> p.value[k] == EmptyRun(d.ids(k), GenerateScenario(d.newcomers(k)))
  {
  }

  /**
   * In a later round with a full table the population has exactly `populationSize` runs: the
   * two elites unchanged, then 12 crossover children, 1 newcomer and 5 mutants of elites,
   * every new run unallocated, incomplete and carrying the id drawn for its place.
   */
  lemma LaterRoundPopulation(round: int, rs: seq<Run>, d: PopulationDraws)
    requires round != 1 && |rs| >= PopulationSize
    ensures var p := NewPopulation(round, rs, d);
            && p.Some? && |p.value| == PopulationSize
            && p.value[..NumElites] == Elites(rs)
            && (forall k :: NumElites <= k < PopulationSize ==>
                  p.value[k].id == d.ids(k) && !p.value[k].isAllocated && !p.value[k].isComplete)
            && (forall k :: 0 <= k < NumCrossovers() ==>
                  p.value[NumElites + k].scenario == CrossoverChild(rs, d, k))
            && p.value[14].scenario == GenerateScenario(d.newcomers(0))
            && (forall k :: 0 <= k < NumMutants() ==> p.value[15 + k].scenario == EliteMutant(Elites(rs), d, k))
  {
    FullTableParentsInRange(rs, d);
    var elites := Elites(rs);
    assert |elites| == NumElites;
    var ps := Partials(round, rs, d).value;
    var p := NewPopulation(round, rs, d).value;
    assert p[..NumElites] == elites by {
      assert ps[0] == LaterSlot(rs, d, 0) == Kept(elites[0]);
      assert ps[1] == LaterSlot(rs, d, 1) == Kept(elites[1]);
      assert p[0] == Complete(ps[0], d.ids(0)) && p[1] == Complete(ps[1], d.ids(1));
    }
  }

  /** A later round fails exactly when the table is empty or a parent draw indexes past its end. */
  lemma LaterRoundFailure(round: int, rs: seq<Run>, d: PopulationDraws)
    requires round != 1
    ensures NewPopulation(round, rs, d).None? <==> rs == [] || !ParentsInRange(rs, d)
  {
  }

  // ---------------------------------------------------------------- run of highest fitness

  /** The running maximum and its run id after the first `|rs|` runs, from (0, 0): only a strictly higher fitness wins. */
  function Leader(rs: seq<Run>): (l: (real, int))
  {
    if rs == [] then (0.0, 0)
    else
      var prev := Leader(rs[..|rs| - 1]);
      if rs[|rs| - 1].fitness > prev.0 then (rs[|rs| - 1].fitness, rs[|rs| - 1].id) else prev
  }

  /**
   * The leader's fitness is at least 0 and at least every run's; without a positive fitness
   * the id is 0, and otherwise it is the id of the first run of the highest fitness.
   */
  lemma {:induction false} LeaderFacts(rs: seq<Run>)
    ensures var l := Leader(rs);
            && l.0 >= 0.0
            && (forall i :: 0 <= i < |rs| ==> rs[i].fitness <= l.0)
            && (l.0 == 0.0 ==> l.1 == 0)
            && (l.0 > 0.0 ==> exists i :: 0 <= i < |rs| && rs[i].fitness == l.0 && rs[i].id == l.1 &&
                                forall j :: 0 <= j < i ==> rs[j].fitness < l.0)
  {
    if rs != [] {
      var init := rs[..|rs| - 1];
      LeaderFacts(init);
      var prev := Leader(init);
      if rs[|rs| - 1].fitness > prev.0 {
        assert forall j :: 0 <= j < |rs| - 1 ==> rs[j] == init[j];
      } else if prev.0 > 0.0 {
        var i :| 0 <= i < |init| && init[i].fitness == prev.0 && init[i].id == prev.1 &&
                 forall j :: 0 <= j < i ==> init[j].fitness < prev.0;
        assert rs[i] == init[i];
        assert forall j :: 0 <= j < i ==> rs[j] == init[j];
      }
      assert forall i :: 0 <= i < |rs| - 1 ==> rs[i] == init[i];
    }
  }

  /** `runIdWithHighestFitness`: the `forEach` that keeps the running maximum. */
  method RunIdWithHighestFitness(rs: seq<Run>) returns (maxFitnessRunId: int)
    ensures maxFitnessRunId == Leader(rs).1
  {
    var maxFitness := 0.0;
    maxFitnessRunId := 0;
    var i := 0;
    while i < |rs|
      invariant 0 <= i <= |rs|
      invariant (maxFitness, maxFitnessRunId) == Leader(rs[..i])
    {
      assert rs[..i + 1][..i] == rs[..i];
      if rs[i].fitness > maxFitness {
        maxFitness := rs[i].fitness;
        maxFitnessRunId := rs[i].id;
      }
      i := i + 1;
    }
    assert rs[..i] == rs;
  }
}
