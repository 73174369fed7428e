/**
 * The simulation worker: the stores it keeps at module level (the living and dead trees,
 * the three yearly series, the year, the run id and the scenario) become the fields of
 * one `Worker` object, and each of its operations a method on that object. A year grows
 * every tree, records carbon, tree count and biodiversity, applies the shade-driven
 * health update and the mortality split, drops seedlings and prunes to the 612 x 176 plot.
 */
module SimulationWorker {
  import opened Wrappers
  import opened JsMath
  import opened Types
  import opened TreeSpecies
  import opened Sampling
  import opened Ecology

  const Width: real := 612.0
  const Height: real := 176.0
  const YearsPerRun: nat := 100
  /** `numTrees` of a generated scenario is `Math.round(Math.random() * 200)`. */
  const MaxInitialTrees: real := 200.0
  /** The run id `reset` draws is `Math.round(Math.random() * 1000000000)`. */
  const RunIdRange: real := 1000000000.0

  /** The scenario this worker generates for itself: three of the scenario fields. */
  datatype WorkerScenario = WorkerScenario(
    speciesProbabilities: Probabilities,
    numTrees: int,
    declusteringStrength: real)

  /** One draw per catalog species, in `[0, 1)`. */
  predicate UnitDraws(raw: seq<real>)
  {
    forall k :: 0 <= k < |raw| ==> 0.0 <= raw[k] < 1.0
  }

  function FixedWeights(raw: seq<real>): (ws: seq<real>)
    ensures |ws| == |raw|
    ensures forall k :: 0 <= k < |raw| ==> ws[k] == Fixed(raw[k], 2)
  {
    seq(|raw|, k requires 0 <= k < |raw| => Fixed(raw[k], 2))
  }

  /**
   * `generateScenario`: each species weight is a draw rounded to two decimals, the
   * weights are divided by their sum, the tree count is a draw times 200 rounded, and
   * the declustering strength is a draw rounded to two decimals.
   */
  function GenerateScenario(raw: seq<real>, uTrees: real, uStrength: real): (sc: WorkerScenario)
    ensures sc.speciesProbabilities.Length() == |raw|
    ensures UnitDraws(raw) ==>
              (sc.speciesProbabilities.NotANumber? <==> forall k :: 0 <= k < |raw| ==> Fixed(raw[k], 2) == 0.0)
    ensures UnitDraws(raw) && sc.speciesProbabilities.Finite? ==>
              && Sum(sc.speciesProbabilities.values) == 1.0
              && forall k :: 0 <= k < |raw| ==> 0.0 <= sc.speciesProbabilities.values[k] <= 1.0
    ensures 0.0 <= uTrees < 1.0 ==> 0 <= sc.numTrees <= 200
    ensures 0.0 <= uStrength < 1.0 ==> 0.0 <= sc.declusteringStrength <= 1.0
  {
    WeightFacts(raw);
    StrengthFacts(uStrength);
    WorkerScenario(Normalize(FixedWeights(raw)), Round(uTrees * MaxInitialTrees), Fixed(uStrength, 2))
  }

  lemma WeightFacts(raw: seq<real>)
    ensures var ps := Normalize(FixedWeights(raw));
            UnitDraws(raw) ==> (
              && (ps.NotANumber? <==> forall k :: 0 <= k < |raw| ==> Fixed(raw[k], 2) == 0.0)
              && (ps.Finite? ==> Sum(ps.values) == 1.0 && forall k :: 0 <= k < |raw| ==> 0.0 <= ps.values[k] <= 1.0))
  {
    var weights := FixedWeights(raw);
    var ps := Normalize(weights);
    if UnitDraws(raw) {
      forall k | 0 <= k < |raw| ensures 0.0 <= weights[k] <= 1.0 {
        FixedTwoBounds(raw[k]);
      }
      assert NonNegative(weights);
      ZeroSumIff(weights);
      if ps.Finite? {
        NormalizedSumsToOne(weights);
        forall k | 0 <= k < |raw| ensures 0.0 <= ps.values[k] <= 1.0 {
          NormalizedInUnit(weights, k);
        }
      }
    }
  }

  lemma StrengthFacts(u: real)
    ensures 0.0 <= u < 1.0 ==> 0.0 <= Fixed(u, 2) <= 1.0
  {
    if 0.0 <= u < 1.0 {
      FixedTwoBounds(u);
    }
  }

  /**
   * `getRandomTreeSpecies` for the draw `u`: the catalog species whose cutoff the draw
   * falls under first; none without a scenario (the lookup of its probabilities fails)
   * and none when no cutoff exceeds `u`.
   */
  function DrawSpecies(catalog: seq<Species>, scenario: Option<WorkerScenario>, u: real): (s: Option<Species>)
    ensures s.Some? ==> s.value in catalog
  {
    if scenario.None? then None
    else match SampleIndex(scenario.value.speciesProbabilities, u)
      case None => None
      case Some(k) => if k < |catalog| then Some(catalog[k]) else None
  }

  /** A draw below 1 always finds a species of a normalised finite scenario. */
  lemma DrawSucceeds(catalog: seq<Species>, sc: WorkerScenario, u: real)
    requires sc.speciesProbabilities.Finite? && sc.speciesProbabilities.Length() == |catalog|
    requires Sum(sc.speciesProbabilities.values) == 1.0
    requires 0.0 <= u < 1.0
    ensures DrawSpecies(catalog, Some(sc), u).Some?
  {
    BelowTotalChoosesSome(sc.speciesProbabilities.values, u);
  }

  /** A species of probability 0 is never drawn, and a draw at or past the total draws none. */
  lemma DrawRespectsWeights(catalog: seq<Species>, sc: WorkerScenario, u: real, k: nat)
    requires WellFormed(catalog)
    requires sc.speciesProbabilities.Finite? && NonNegative(sc.speciesProbabilities.values)
    requires 0.0 <= u
    ensures (k < |catalog| && k < sc.speciesProbabilities.Length() && sc.speciesProbabilities.values[k] == 0.0) ==>
              DrawSpecies(catalog, Some(sc), u) != Some(catalog[k])
    ensures u >= Sum(sc.speciesProbabilities.values) ==> DrawSpecies(catalog, Some(sc), u).None?
  {
    var ps := sc.speciesProbabilities.values;
    if k < |catalog| && k < |ps| && ps[k] == 0.0 {
      ZeroNeverChosen(ps, u, k);
    }
    if u >= Sum(ps) {
      AboveTotalChoosesNothing(ps, u);
    }
  }

  // ---------------------------------------------------------------- planting

  /** How many trees `addNRandomTrees(numTrees)` plants beside `present` trees: none once the count is reached. */
  function PlantCount(numTrees: int, present: nat): (count: nat)
    ensures present + count >= numTrees
    ensures numTrees > present ==> present + count == numTrees
    ensures numTrees <= present ==> count == 0
  {
    if numTrees > present then numTrees - present else 0
  }

  /**
   * The trees the planting loop of `addNRandomTrees` creates: tree `j` of `count` takes
   * the species the draw `speciesDraws(j)` selects and its position and size from
   * `plantDraws(j)`. A draw that selects no species makes `species.id` throw, which the
   * model reports as `None`.
   */
  function Planted(catalog: seq<Species>, scenario: Option<WorkerScenario>, count: nat,
                   speciesDraws: nat -> real, plantDraws: nat -> PlantDraw): Option<seq<Tree>>
  {
    if count == 0 then Some([])
    else match Planted(catalog, scenario, count - 1, speciesDraws, plantDraws)
      case None => None
      case Some(prefix) =>
        match DrawSpecies(catalog, scenario, speciesDraws(count - 1))
        case None => None
        case Some(s) => Some(prefix + [PlantedTree(s, plantDraws(count - 1), Width, Height)])
  }

  /** Each of the first `count` species draws selects a species. */
  predicate AllDrawn(catalog: seq<Species>, scenario: Option<WorkerScenario>, count: nat, speciesDraws: nat -> real)
  {
    forall j :: 0 <= j < count ==> DrawSpecies(catalog, scenario, speciesDraws(j)).Some?
  }

  /** Planting succeeds exactly when every draw selects a species, and then tree `j` is planted from draw `j`. */
  lemma PlantedFacts(catalog: seq<Species>, scenario: Option<WorkerScenario>, count: nat,
                     speciesDraws: nat -> real, plantDraws: nat -> PlantDraw)
    ensures Planted(catalog, scenario, count, speciesDraws, plantDraws).Some? <==> AllDrawn(catalog, scenario, count, speciesDraws)
    ensures Planted(catalog, scenario, count, speciesDraws, plantDraws).Some? ==>
              var ts := Planted(catalog, scenario, count, speciesDraws, plantDraws).value;
              && |ts| == count
              && forall j :: 0 <= j < count ==>
                   DrawSpecies(catalog, scenario, speciesDraws(j)).Some? &&
                   ts[j] == PlantedTree(DrawSpecies(catalog, scenario, speciesDraws(j)).value, plantDraws(j), Width, Height)
  {
    PlantedSucceedsIff(catalog, scenario, count, speciesDraws, plantDraws);
    if Planted(catalog, scenario, count, speciesDraws, plantDraws).Some? {
      PlantedElements(catalog, scenario, count, speciesDraws, plantDraws);
    }
  }

  lemma {:induction false} PlantedSucceedsIff(catalog: seq<Species>, scenario: Option<WorkerScenario>, count: nat,
                                              speciesDraws: nat -> real, plantDraws: nat -> PlantDraw)
    ensures Planted(catalog, scenario, count, speciesDraws, plantDraws).Some? <==> AllDrawn(catalog, scenario, count, speciesDraws)
  {
    if count > 0 {
      PlantedSucceedsIff(catalog, scenario, count - 1, speciesDraws, plantDraws);
      var drawn := DrawSpecies(catalog, scenario, speciesDraws(count - 1));
      assert Planted(catalog, scenario, count, speciesDraws, plantDraws).Some? <==>
               Planted(catalog, scenario, count - 1, speciesDraws, plantDraws).Some? && drawn.Some?;
      assert AllDrawn(catalog, scenario, count, speciesDraws) <==>
               AllDrawn(catalog, scenario, count - 1, speciesDraws) && drawn.Some?;
    }
  }

  lemma {:induction false} PlantedElements(catalog: seq<Species>, scenario: Option<WorkerScenario>, count: nat,
                                           speciesDraws: nat -> real, plantDraws: nat -> PlantDraw)
    requires Planted(catalog, scenario, count, speciesDraws, plantDraws).Some?
    ensures var ts := Planted(catalog, scenario, count, speciesDraws, plantDraws).value;
            && |ts| == count
            && forall j :: 0 <= j < count ==>
                 DrawSpecies(catalog, scenario, speciesDraws(j)).Some? &&
                 ts[j] == PlantedTree(DrawSpecies(catalog, scenario, speciesDraws(j)).value, plantDraws(j), Width, Height)
  {
    if count > 0 {
      var prev := Planted(catalog, scenario, count - 1, speciesDraws, plantDraws).value;
      PlantedElements(catalog, scenario, count - 1, speciesDraws, plantDraws);
      var drawn := DrawSpecies(catalog, scenario, speciesDraws(count - 1)).value;
      var ts := prev + [PlantedTree(drawn, plantDraws(count - 1), Width, Height)];
      assert Planted(catalog, scenario, count, speciesDraws, plantDraws).value == ts;
      forall j | 0 <= j < count
        ensures DrawSpecies(catalog, scenario, speciesDraws(j)).Some?
        ensures ts[j] == PlantedTree(DrawSpecies(catalog, scenario, speciesDraws(j)).value, plantDraws(j), Width, Height)
      {
        if j < count - 1 {
          assert ts[j] == prev[j];
        }
      }
    }
  }

  /** A draw that selects no species makes every longer planting fail. */
  lemma {:induction false} PlantedFailsAt(catalog: seq<Species>, scenario: Option<WorkerScenario>, count: nat, j: nat,
                                          speciesDraws: nat -> real, plantDraws: nat -> PlantDraw)
    requires j < count && DrawSpecies(catalog, scenario, speciesDraws(j)).None?
    ensures Planted(catalog, scenario, count, speciesDraws, plantDraws).None?
  {
    if j < count - 1 {
      PlantedFailsAt(catalog, scenario, count - 1, j, speciesDraws, plantDraws);
    }
  }

  /** A successful planting of `count` trees yields `count` trees. */
  lemma {:induction false} PlantedLength(catalog: seq<Species>, scenario: Option<WorkerScenario>, count: nat,
                                         speciesDraws: nat -> real, plantDraws: nat -> PlantDraw)
    requires Planted(catalog, scenario, count, speciesDraws, plantDraws).Some?
    ensures |Planted(catalog, scenario, count, speciesDraws, plantDraws).value| == count
  {
    if count > 0 {
      PlantedLength(catalog, scenario, count - 1, speciesDraws, plantDraws);
    }
  }

  /** The planted trees name catalog species, start healthy and unaged, and stand on the plot. */
  lemma PlantedTreesValid(catalog: seq<Species>, scenario: Option<WorkerScenario>, count: nat,
                          speciesDraws: nat -> real, plantDraws: nat -> PlantDraw)
    requires WellFormed(catalog)
    requires Planted(catalog, scenario, count, speciesDraws, plantDraws).Some?
    ensures var ts := Planted(catalog, scenario, count, speciesDraws, plantDraws).value;
            && KnownSpecies(catalog, ts)
            && (forall j :: 0 <= j < |ts| ==> ts[j].age == 0 && ts[j].health == 1.0 && ts[j].radius == 0.0)
            && (forall j :: 0 <= j < |ts| && ValidDraw(plantDraws(j)) ==>
                  InBounds(ts[j], Width, Height) && 0.5 <= ts[j].sizeMultiplier < 1.0)
  {
    var ts := Planted(catalog, scenario, count, speciesDraws, plantDraws).value;
    PlantedFacts(catalog, scenario, count, speciesDraws, plantDraws);
    forall j | 0 <= j < |ts| ensures FindSpecies(catalog, ts[j].speciesId).Some? {
      var s := DrawSpecies(catalog, scenario, speciesDraws(j)).value;
      var i :| 0 <= i < |catalog| && catalog[i] == s;
      FindSpeciesAt(catalog, i);
    }
  }

  /** Under a normalised scenario, draws below 1 never make the planting throw. */
  lemma PlantingSucceeds(catalog: seq<Species>, sc: WorkerScenario, count: nat,
                         speciesDraws: nat -> real, plantDraws: nat -> PlantDraw)
    requires sc.speciesProbabilities.Finite? && sc.speciesProbabilities.Length() == |catalog|
    requires Sum(sc.speciesProbabilities.values) == 1.0
    requires forall j :: 0 <= j < count ==> 0.0 <= speciesDraws(j) < 1.0
    ensures Planted(catalog, Some(sc), count, speciesDraws, plantDraws).Some?
  {
    forall j | 0 <= j < count ensures DrawSpecies(catalog, Some(sc), speciesDraws(j)).Some? {
      DrawSucceeds(catalog, sc, speciesDraws(j));
    }
    PlantedFacts(catalog, Some(sc), count, speciesDraws, plantDraws);
  }

  // ---------------------------------------------------------------- messages and fitness

  /**
   * What the worker posts: a live `updatedRun` after the records of each year (its trees,
   * dead trees and fitness are always empty and 0), the `runData` of the finished run
   * (always `isComplete`), and `success`.
   */
  datatype WorkerMessage =
    | UpdatedRun(id: int, carbon: seq<real>, treeCounts: seq<real>, biodiversity: seq<real>,
                 scenario: Option<WorkerScenario>)
    | RunData(id: int, carbon: seq<real>, treeCounts: seq<real>, biodiversity: seq<real>,
              trees: seq<Tree>, deadTrees: seq<Tree>, scenario: Option<WorkerScenario>, fitness: Option<int>)
    | Success

  /** The derived `carbon` store: the latest yearly entry, 0 before the first. */
  function LatestCarbon(carbon: seq<real>): (c: real)
    ensures carbon == [] ==> c == 0.0
    ensures carbon != [] ==> c in carbon
  {
    if carbon == [] then 0.0 else carbon[|carbon| - 1]
  }

  /**
   * `calculateFitness`: biodiversity squared (`Math.pow(b, 2)`, which is `b * b`) times carbon over 2000, divided by `penalty`
   * (the cube root of the planted count over 100), rounded. A zero penalty divides into
   * an infinity or NaN, for which `None` stands.
   */
  function Fitness(biodiversity: real, carbon: real, penalty: real): Option<int>
  {
    if penalty == 0.0 then None else Some(Round(biodiversity * biodiversity * carbon / 2000.0 / penalty))
  }

  /** The fitness is finite exactly for a non-zero penalty, and then has the sign of the carbon and vanishes without biodiversity. */
  lemma FitnessSigns(biodiversity: real, carbon: real, penalty: real)
    ensures Fitness(biodiversity, carbon, penalty).None? <==> penalty == 0.0
    ensures penalty > 0.0 && carbon >= 0.0 ==> Fitness(biodiversity, carbon, penalty).value >= 0
    ensures penalty > 0.0 && carbon <= 0.0 ==> Fitness(biodiversity, carbon, penalty).value <= 0
    ensures penalty != 0.0 && biodiversity == 0.0 ==> Fitness(biodiversity, carbon, penalty) == Some(0)
  {
    SquareNonNegative(biodiversity);
    if penalty > 0.0 {
      if carbon >= 0.0 {
        ScaleMonotone(biodiversity * biodiversity, 0.0, carbon);
        DivideMonotone(0.0, biodiversity * biodiversity * carbon / 2000.0, penalty);
      } else {
        ScaleMonotone(biodiversity * biodiversity, carbon, 0.0);
        DivideMonotone(biodiversity * biodiversity * carbon / 2000.0, 0.0, penalty);
      }
    }
  }

  /** More carbon never lowers the fitness, for a positive penalty. */
  lemma FitnessMonotone(biodiversity: real, carbon1: real, carbon2: real, penalty: real)
    requires penalty > 0.0 && carbon1 <= carbon2
    ensures Fitness(biodiversity, carbon1, penalty).value <= Fitness(biodiversity, carbon2, penalty).value
  {
    SquareNonNegative(biodiversity);
    ScaleMonotone(biodiversity * biodiversity, carbon1, carbon2);
    DivideMonotone(biodiversity * biodiversity * carbon1 / 2000.0, biodiversity * biodiversity * carbon2 / 2000.0, penalty);
    RoundMonotone(biodiversity * biodiversity * carbon1 / 2000.0 / penalty,
                  biodiversity * biodiversity * carbon2 / 2000.0 / penalty);
  }

  /** The fitness the finished run reports; without a scenario the tree count is NaN. */
  function RunFitness(scenario: Option<WorkerScenario>, trees: seq<Tree>, carbon: seq<real>, cbrt: real -> real): Option<int>
  {
    if scenario.None? then None
    else Fitness(Biodiversity(trees), LatestCarbon(carbon), cbrt(scenario.value.numTrees as real / 100.0))
  }

  /**
   * The reported fitness is NaN (`None`) without a scenario or for a zero penalty, and is
   * never negative when the penalty is positive and no yearly carbon entry is negative.
   */
  lemma RunFitnessFacts(scenario: Option<WorkerScenario>, trees: seq<Tree>, carbon: seq<real>, cbrt: real -> real)
    ensures scenario.None? ==> RunFitness(scenario, trees, carbon, cbrt) == None
    ensures scenario.Some? ==>
              (RunFitness(scenario, trees, carbon, cbrt).None? <==> cbrt(scenario.value.numTrees as real / 100.0) == 0.0)
    ensures && scenario.Some? && cbrt(scenario.value.numTrees as real / 100.0) > 0.0
            && (forall k :: 0 <= k < |carbon| ==> carbon[k] >= 0.0)
            ==> RunFitness(scenario, trees, carbon, cbrt).value >= 0
  {
    if scenario.Some? {
      FitnessSigns(Biodiversity(trees), LatestCarbon(carbon), cbrt(scenario.value.numTrees as real / 100.0));
    }
  }

  /** `msgs` is `sent` followed by `count` live updates of run `id`. */
  predicate UpdatesAfter(msgs: seq<WorkerMessage>, sent: seq<WorkerMessage>, count: nat, id: int)
  {
    && |msgs| == |sent| + count
    && msgs[..|sent|] == sent
    && forall k :: |sent| <= k < |msgs| ==> msgs[k].UpdatedRun? && msgs[k].id == id
  }

  lemma UpdatesAfterOne(sent: seq<WorkerMessage>, m: WorkerMessage)
    requires m.UpdatedRun?
    ensures UpdatesAfter(sent + [m], sent, 1, m.id)
  {
    assert (sent + [m])[..|sent|] == sent;
  }

  lemma UpdatesAfterTrans(a: seq<WorkerMessage>, b: seq<WorkerMessage>, c: seq<WorkerMessage>, i: nat, j: nat, id: int)
    requires UpdatesAfter(b, a, i, id) && UpdatesAfter(c, b, j, id)
    ensures UpdatesAfter(c, a, i + j, id)
  {
    assert c[..|a|] == c[..|b|][..|a|];
  }

  /** A finished run as posted after `sent`: `years` live updates, the report, then `success`. */
  predicate RunPosted(msgs: seq<WorkerMessage>, sent: seq<WorkerMessage>, years: nat, report: WorkerMessage)
  {
    && report.RunData?
    && |msgs| == |sent| + years + 2
    && UpdatesAfter(msgs[..|msgs| - 2], sent, years, report.id)
    && msgs[|msgs| - 2] == report
    && msgs[|msgs| - 1] == Success
  }

  lemma RunPostedAfterReport(ran: seq<WorkerMessage>, sent: seq<WorkerMessage>, years: nat, report: WorkerMessage)
    requires report.RunData? && |ran| > 0 && UpdatesAfter(ran[..|ran| - 1], sent, years, report.id) && ran[|ran| - 1] == report
    ensures RunPosted(ran + [Success], sent, years, report)
  {
    assert (ran + [Success])[..|ran| - 1] == ran[..|ran| - 1];
  }

  /** The worker's `postMessage`: every message posted, in order. */
  class Port {
    var messages: seq<WorkerMessage>

    constructor ()
      ensures messages == []
    {
      messages := [];
    }

    method Post(m: WorkerMessage)
      modifies this
      ensures messages == old(messages) + [m]
    {
      messages := messages + [m];
    }
  }

  /** The worker's state at the end of a year, as the year's specification sees it. */
  datatype Snapshot = Snapshot(
    trees: seq<Tree>,
    deadTrees: seq<Tree>,
    carbon: seq<real>,
    treeCounts: seq<real>,
    biodiversity: seq<real>,
    year: int)

  /**
   * One pass of the `stepNYears` loop: growth, then the carbon, tree-count and
   * biodiversity entries of the grown trees, then the health update and mortality split,
   * then seeding and pruning. `draws(i)` are the seed draws of living tree `i`.
   */
  function YearStep(catalog: seq<Species>, w: Snapshot, env: Env, draws: nat -> SeedDraw): (r: Snapshot)
    requires KnownSpecies(catalog, w.trees) && ValidEnv(env)
    ensures KnownSpecies(catalog, r.trees)
    ensures r.year == w.year + 1
    ensures r.carbon == w.carbon + [Carbon(GrowAll(catalog, w.trees) + w.deadTrees)]
    ensures r.treeCounts == w.treeCounts + [|w.trees| as real]
    ensures r.biodiversity == w.biodiversity + [Biodiversity(GrowAll(catalog, w.trees))]
    ensures |r.deadTrees| >= |w.deadTrees| && r.deadTrees[..|w.deadTrees|] == w.deadTrees
  {
    var grown := GrowAll(catalog, w.trees);
    GrownTreesAreAged(catalog, w.trees);
    var health := HealthAll(catalog, grown, env);
    HealthKeepsKnown(catalog, grown, env);
    var living := Living(health);
    SeedingKeepsKnown(catalog, env, living, draws, Width, Height);
    var dead := w.deadTrees + Dying(health);
    assert dead[..|w.deadTrees|] == w.deadTrees;
    Snapshot(
      Prune(living + AllSeedlings(env, living, draws), Width, Height),
      dead,
      w.carbon + [Carbon(grown + w.deadTrees)],
      w.treeCounts + [|grown| as real],
      w.biodiversity + [Biodiversity(grown)],
      w.year + 1)
  }

  /**
   * The trees a year leaves: the living trees of the health pass inside the plot and their
   * seedlings, at most `round(2 * sqrt(age) / 3)` from each living parent aged 10 or more.
   */
  lemma YearTrees(catalog: seq<Species>, w: Snapshot, env: Env, draws: nat -> SeedDraw)
    requires KnownSpecies(catalog, w.trees) && ValidEnv(env)
    requires ExactAgeSqrt(env) && UnitCounts(draws, |w.trees|)
    ensures (GrownTreesAreAged(catalog, w.trees);
            var living := Living(HealthAll(catalog, GrowAll(catalog, w.trees), env));
            var r := YearStep(catalog, w, env, draws);
            && |r.trees| <= |living| + SeedlingCap(env, living)
            && |living| <= |w.trees|
            && (forall t :: t in living ==> !IsDead(t))
            && forall t :: t in r.trees ==> InBounds(t, Width, Height) && (t in living || FreshSeedlingOf(t, living)))
  {
    var grown := GrowAll(catalog, w.trees);
    GrownTreesAreAged(catalog, w.trees);
    var health := HealthAll(catalog, grown, env);
    PartitionCount(health);
    FilterMembers(health);
    SeedingPassFacts(env, Living(health), draws, Width, Height);
  }

  /** A prefix of a prefix is a prefix. */
  lemma PrefixOfPrefix<T>(a: seq<T>, b: seq<T>, c: seq<T>)
    requires |a| <= |b| <= |c| && b[..|a|] == a && c[..|b|] == b
    ensures c[..|a|] == a
  {
    assert c[..|a|] == c[..|b|][..|a|];
  }

  /** `n` passes of the loop; `draws(y)` are the seed draws of pass `y`. */
  function Years(catalog: seq<Species>, w: Snapshot, n: nat, env: Env, draws: nat -> nat -> SeedDraw): (r: Snapshot)
    requires KnownSpecies(catalog, w.trees) && ValidEnv(env)
    ensures KnownSpecies(catalog, r.trees)
    ensures r.year == w.year + n
    ensures |r.carbon| == |w.carbon| + n && r.carbon[..|w.carbon|] == w.carbon
    ensures |r.treeCounts| == |w.treeCounts| + n && r.treeCounts[..|w.treeCounts|] == w.treeCounts
    ensures |r.biodiversity| == |w.biodiversity| + n && r.biodiversity[..|w.biodiversity|] == w.biodiversity
    ensures |r.deadTrees| >= |w.deadTrees| && r.deadTrees[..|w.deadTrees|] == w.deadTrees
  {
    if n == 0 then w
    else
      var before := Years(catalog, w, n - 1, env, draws);
      var r := YearStep(catalog, before, env, draws(n - 1));
      PrefixOfPrefix(w.carbon, before.carbon, r.carbon);
      PrefixOfPrefix(w.treeCounts, before.treeCounts, r.treeCounts);
      PrefixOfPrefix(w.biodiversity, before.biodiversity, r.biodiversity);
      PrefixOfPrefix(w.deadTrees, before.deadTrees, r.deadTrees);
      r
  }

  lemma YearsNext(catalog: seq<Species>, w: Snapshot, n: nat, env: Env, draws: nat -> nat -> SeedDraw)
    requires KnownSpecies(catalog, w.trees) && ValidEnv(env)
    ensures Years(catalog, w, n + 1, env, draws) == YearStep(catalog, Years(catalog, w, n, env, draws), env, draws(n))
  {
  }

  class Worker {
    /** The species catalog the worker imports. */
    const catalog: seq<Species>
    var trees: seq<Tree>
    var deadTrees: seq<Tree>
    var yearlyCarbon: seq<real>
    var yearlyTrees: seq<real>
    var yearlyBiodiversity: seq<real>
    var year: int
    var currentRunId: int
    var scenario: Option<WorkerScenario>
    /** Where `postMessage` sends. */
    const port: Port

    /** Every tree names a catalog species, the three series run in step, and a scenario has one weight per species. */
    ghost predicate Valid()
      reads this
    {
      && WellFormed(catalog)
      && KnownSpecies(catalog, trees)
      && |yearlyCarbon| == |yearlyTrees| == |yearlyBiodiversity|
      && (scenario.Some? ==> scenario.value.speciesProbabilities.Length() == |catalog|)
    }

    function State(): Snapshot
      reads this
    {
      Snapshot(trees, deadTrees, yearlyCarbon, yearlyTrees, yearlyBiodiversity, year)
    }

    /** The stores as the module creates them. */
    constructor ()
      ensures Valid() && catalog == Catalog()
      ensures trees == [] && deadTrees == []
      ensures yearlyCarbon == [0.0] && yearlyTrees == [0.0] && yearlyBiodiversity == [0.0]
      ensures year == 0 && currentRunId == 0 && scenario.None?
      ensures fresh(port) && port.messages == []
    {
      catalog := Catalog();
      port := new Port();
      trees, deadTrees := [], [];
      yearlyCarbon, yearlyTrees, yearlyBiodiversity := [0.0], [0.0], [0.0];
      year, currentRunId := 0, 0;
      scenario := None;
    }

    /** A random run id, empty series, the given (or no) initial trees, no dead trees, year 0. */
    method Reset(uRunId: real, initialTrees: Option<seq<Tree>>)
      requires Valid()
      requires initialTrees.Some? ==> KnownSpecies(catalog, initialTrees.value)
      modifies this
      ensures Valid()
      ensures currentRunId == Round(uRunId * RunIdRange)
      ensures 0.0 <= uRunId < 1.0 ==> 0 <= currentRunId <= 1000000000
      ensures yearlyCarbon == [] && yearlyTrees == [] && yearlyBiodiversity == []
      ensures trees == initialTrees.GetOr([]) && deadTrees == [] && year == 0
      ensures scenario == old(scenario)
    {
      currentRunId := Round(uRunId * RunIdRange);
      yearlyCarbon, yearlyTrees, yearlyBiodiversity := [], [], [];
      trees := initialTrees.GetOr([]);
      deadTrees := [];
      year := 0;
    }

    /** `clearRunHistory`: the run id goes back to 0. */
    method ClearRunHistory()
      modifies this
      ensures currentRunId == 0
      ensures State() == old(State()) && scenario == old(scenario)
    {
      currentRunId := 0;
    }

    method GenerateWorkerScenario(raw: seq<real>, uTrees: real, uStrength: real)
      requires Valid() && |raw| == |catalog|
      modifies this
      ensures Valid()
      ensures scenario == Some(GenerateScenario(raw, uTrees, uStrength))
      ensures trees == old(trees) && deadTrees == old(deadTrees) && State() == old(State())
      ensures currentRunId == old(currentRunId)
    {
      scenario := Some(GenerateScenario(raw, uTrees, uStrength));
    }

    /** `calculateCarbon` over the living and the dead trees. */
    method CalculateCarbon() returns (carbonSum: real)
      ensures carbonSum == Carbon(trees + deadTrees)
    {
      carbonSum := CarbonSum(trees, deadTrees);
    }

    method GetRandomTreeSpecies(u: real) returns (species: Option<Species>)
      requires Valid()
      ensures species == DrawSpecies(catalog, scenario, u)
    {
      if scenario.None? {
        return None;
      }
      var index := ChooseIndex(scenario.value.speciesProbabilities, u);
      if index.Some? && index.value < |catalog| {
        FindSpeciesAt(catalog, index.value);
        species := FindSpecies(catalog, Ids(catalog)[index.value]);
      } else {
        species := None;
      }
    }

    /** `calculateTreeHealth`: the living trees stay, the newly dead are appended to `deadTrees`. */
    method CalculateTreeHealth(env: Env)
      requires Valid() && AllAged(trees) && ValidEnv(env)
      modifies this
      ensures Valid()
      ensures trees == Living(HealthAll(catalog, old(trees), env))
      ensures deadTrees == old(deadTrees) + Dying(HealthAll(catalog, old(trees), env))
      ensures |trees| + |deadTrees| == |old(trees)| + |old(deadTrees)|
      ensures yearlyCarbon == old(yearlyCarbon) && yearlyTrees == old(yearlyTrees)
      ensures yearlyBiodiversity == old(yearlyBiodiversity) && year == old(year)
      ensures currentRunId == old(currentRunId) && scenario == old(scenario)
    {
      var living, dying := SplitHealth(catalog, trees, env);
      trees, deadTrees := living, deadTrees + dying;
    }

    method PruneOverflowTrees()
      modifies this
      ensures trees == Prune(old(trees), Width, Height)
      ensures deadTrees == old(deadTrees) && yearlyCarbon == old(yearlyCarbon)
      ensures yearlyTrees == old(yearlyTrees) && yearlyBiodiversity == old(yearlyBiodiversity)
      ensures year == old(year) && currentRunId == old(currentRunId) && scenario == old(scenario)
    {
      trees := Prune(trees, Width, Height);
    }

    /** `propagateSeeds`: every tree of reproductive age drops its seedlings, after which the plot is pruned. */
    method PropagateSeeds(env: Env, draws: nat -> SeedDraw)
      requires Valid()
      modifies this
      ensures Valid()
      ensures trees == Prune(old(trees) + AllSeedlings(env, old(trees), draws), Width, Height)
      ensures deadTrees == old(deadTrees) && yearlyCarbon == old(yearlyCarbon)
      ensures yearlyTrees == old(yearlyTrees) && yearlyBiodiversity == old(yearlyBiodiversity)
      ensures year == old(year) && currentRunId == old(currentRunId) && scenario == old(scenario)
    {
      var seedlings := CollectSeedlings(env, trees, draws);
      SeedingKeepsKnown(catalog, env, trees, draws, Width, Height);
      trees := trees + seedlings;
      PruneOverflowTrees();
    }

    /** The first half of a pass: growth, then the carbon, tree-count and biodiversity entries. */
    method GrowAndRecord()
      requires Valid()
      modifies this
      ensures Valid() && AllAged(trees)
      ensures trees == GrowAll(catalog, old(trees)) && deadTrees == old(deadTrees)
      ensures yearlyCarbon == old(yearlyCarbon) + [Carbon(trees + deadTrees)]
      ensures yearlyTrees == old(yearlyTrees) + [|trees| as real]
      ensures yearlyBiodiversity == old(yearlyBiodiversity) + [Biodiversity(trees)]
      ensures year == old(year) + 1
      ensures currentRunId == old(currentRunId) && scenario == old(scenario)
    {
      year := year + 1;
      GrownTreesAreAged(catalog, trees);
      trees := GrowAll(catalog, trees);
      var newCarbon := CalculateCarbon();
      yearlyCarbon := yearlyCarbon + [newCarbon];
      yearlyTrees := yearlyTrees + [|trees| as real];
      yearlyBiodiversity := yearlyBiodiversity + [Biodiversity(trees)];
    }

    /** One pass of the `stepNYears` loop. */
    method StepYear(env: Env, draws: nat -> SeedDraw)
      requires Valid() && ValidEnv(env)
      modifies this, port
      ensures Valid()
      ensures State() == YearStep(catalog, old(State()), env, draws)
      ensures currentRunId == old(currentRunId) && scenario == old(scenario)
      ensures port.messages == old(port.messages) + [UpdatedRun(currentRunId, yearlyCarbon, yearlyTrees, yearlyBiodiversity, scenario)]
    {
      GrowAndRecord();
      port.Post(UpdatedRun(currentRunId, yearlyCarbon, yearlyTrees, yearlyBiodiversity, scenario));
      CalculateTreeHealth(env);
      PropagateSeeds(env, draws);
    }

    /** Pass `k` of the loop, started from `start`. */
    method StepFrom(ghost start: Snapshot, k: nat, env: Env, draws: nat -> nat -> SeedDraw)
      requires Valid() && ValidEnv(env) && KnownSpecies(catalog, start.trees)
      requires State() == Years(catalog, start, k, env, draws)
      modifies this, port
      ensures Valid()
      ensures State() == Years(catalog, start, k + 1, env, draws)
      ensures currentRunId == old(currentRunId) && scenario == old(scenario)
      ensures UpdatesAfter(port.messages, old(port.messages), 1, currentRunId)
    {
      ghost var sent := port.messages;
      StepYear(env, draws(k));
      UpdatesAfterOne(sent, UpdatedRun(currentRunId, yearlyCarbon, yearlyTrees, yearlyBiodiversity, scenario));
      YearsNext(catalog, start, k, env, draws);
    }

    /** The loop of `stepNYears(n)`: the year body `n` times, `draws(y)` feeding pass `y`. */
    method RunYears(n: nat, env: Env, draws: nat -> nat -> SeedDraw)
      requires Valid() && ValidEnv(env)
      modifies this, port
      ensures Valid()
      ensures State() == Years(catalog, old(State()), n, env, draws)
      ensures currentRunId == old(currentRunId) && scenario == old(scenario)
      ensures UpdatesAfter(port.messages, old(port.messages), n, currentRunId)
    {
      ghost var start := State();
      ghost var sent := port.messages;
      assert sent[..|sent|] == sent;
      var index := 0;
      while index < n
        invariant 0 <= index <= n
        invariant Valid()
        invariant State() == Years(catalog, start, index, env, draws)
        invariant currentRunId == old(currentRunId) && scenario == old(scenario)
        invariant UpdatesAfter(port.messages, sent, index, currentRunId)
      {
        ghost var before := port.messages;
        StepFrom(start, index, env, draws);
        UpdatesAfterTrans(sent, before, port.messages, index, 1, currentRunId);
        index := index + 1;
      }
    }

    /**
     * `stepNYears(n)`: the loop, then the `runData` of the finished run with its fitness;
     * `cbrt` is the cube root `Math.pow(x, 1/3)`.
     */
    method StepNYears(n: nat, env: Env, draws: nat -> nat -> SeedDraw, cbrt: real -> real)
      requires Valid() && ValidEnv(env)
      modifies this, port
      ensures Valid()
      ensures State() == Years(catalog, old(State()), n, env, draws)
      ensures currentRunId == old(currentRunId) && scenario == old(scenario)
      ensures |port.messages| > 0
      ensures UpdatesAfter(port.messages[..|port.messages| - 1], old(port.messages), n, currentRunId)
      ensures port.messages[|port.messages| - 1] ==
                RunData(currentRunId, yearlyCarbon, yearlyTrees, yearlyBiodiversity, trees, deadTrees, scenario,
                        RunFitness(scenario, trees, yearlyCarbon, cbrt))
    {
      RunYears(n, env, draws);
      ghost var sent := port.messages;
      port.Post(RunData(currentRunId, yearlyCarbon, yearlyTrees, yearlyBiodiversity, trees, deadTrees, scenario,
                        RunFitness(scenario, trees, yearlyCarbon, cbrt)));
      assert port.messages[..|port.messages| - 1] == sent;
    }

    /** The planting loop of `addNRandomTrees`: a species draw, then position and size, for each of `remaining` trees. */
    method PlantTrees(remaining: int, speciesDraws: nat -> real, plantDraws: nat -> PlantDraw)
      returns (newTrees: Option<seq<Tree>>)
      requires Valid()
      ensures newTrees == Planted(catalog, scenario, PlantCount(remaining, 0), speciesDraws, plantDraws)
    {
      var planted: seq<Tree> := [];
      var index: nat := 0;
      while index < remaining
        invariant index <= PlantCount(remaining, 0)
        invariant Planted(catalog, scenario, index, speciesDraws, plantDraws) == Some(planted)
      {
        var species := GetRandomTreeSpecies(speciesDraws(index));
        if species.None? {
          PlantedFailsAt(catalog, scenario, PlantCount(remaining, 0), index, speciesDraws, plantDraws);
          return None;
        }
        planted := planted + [PlantedTree(species.value, plantDraws(index), Width, Height)];
        index := index + 1;
      }
      return Some(planted);
    }

    /** One call of `addNRandomTrees(numTrees)` up to its recursive call: plant the missing trees, append them, decluster. */
    method PlantAndDecluster(numTrees: int, speciesDraws: nat -> real, plantDraws: nat -> PlantDraw, env: Env)
      returns (ok: bool)
      requires Valid()
      modifies this
      ensures Valid()
      ensures ok <==> Planted(catalog, scenario, PlantCount(numTrees, |old(trees)|), speciesDraws, plantDraws).Some?
      ensures !ok ==> trees == old(trees)
      ensures ok ==> |trees| == |old(trees)| + PlantCount(numTrees, |old(trees)|)
      ensures ok ==> MovedOnly(trees, old(trees) + Planted(catalog, scenario, PlantCount(numTrees, |old(trees)|), speciesDraws, plantDraws).value)
      ensures State().(trees := old(trees)) == old(State())
      ensures currentRunId == old(currentRunId) && scenario == old(scenario)
    {
      ghost var count := PlantCount(numTrees, |trees|);
      ghost var before := State();
      assert PlantCount(numTrees - |trees|, 0) == count;
      var newTrees := PlantTrees(numTrees - |trees|, speciesDraws, plantDraws);
      if newTrees.None? {
        return false;
      }
      ghost var planted := newTrees.value;
      assert Planted(catalog, scenario, count, speciesDraws, plantDraws) == Some(planted);
      PlantedLength(catalog, scenario, count, speciesDraws, plantDraws);
      PlantedTreesValid(catalog, scenario, count, speciesDraws, plantDraws);
      var all := trees + newTrees.value;
      KnownAppend(catalog, trees, planted);
      trees := all;
      assert State().(trees := before.trees) == before;
      DeclusterTrees(env);
      assert MovedOnly(trees, all);
      assert |all| == |before.trees| + count;
      ok := true;
    }

    /**
     * `addNRandomTrees(numTrees)`: plants the missing trees, appends them and declusters;
     * when it planted any it calls itself with the number it planted, which plants nothing
     * (the plot already holds more) but declusters once more. `ok` is false when a species
     * draw made it throw, which leaves the trees as they were.
     */
    method AddNRandomTrees(numTrees: int, speciesDraws: nat -> real, plantDraws: nat -> PlantDraw, env: Env)
      returns (ok: bool)
      requires Valid()
      modifies this
      ensures Valid()
      ensures ok <==> Planted(catalog, scenario, PlantCount(numTrees, |old(trees)|), speciesDraws, plantDraws).Some?
      ensures !ok ==> trees == old(trees)
      ensures ok ==> |trees| == |old(trees)| + PlantCount(numTrees, |old(trees)|)
      ensures ok ==> MovedOnly(trees, old(trees) + Planted(catalog, scenario, PlantCount(numTrees, |old(trees)|), speciesDraws, plantDraws).value)
      ensures State().(trees := old(trees)) == old(State())
      ensures currentRunId == old(currentRunId) && scenario == old(scenario)
      decreases if numTrees > |trees| then 1 else 0
    {
      var remaining := numTrees - |trees|;
      ok := PlantAndDecluster(numTrees, speciesDraws, plantDraws, env);
      if ok && remaining > 0 {
        ghost var once := trees;
        var again := AddNRandomTrees(remaining, speciesDraws, plantDraws, env);
        assert PlantCount(remaining, |once|) == 0;
        MovedOnlyTrans(trees, once, old(trees) + Planted(catalog, scenario, remaining, speciesDraws, plantDraws).value);
      }
    }

    /** `runScenario`, then `success`: the part of `runSimulation` after planting. */
    method RunScenario(env: Env, draws: nat -> nat -> SeedDraw, cbrt: real -> real)
      requires Valid() && ValidEnv(env)
      modifies this, port
      ensures Valid()
      ensures State() == Years(catalog, old(State()), YearsPerRun, env, draws)
      ensures currentRunId == old(currentRunId) && scenario == old(scenario)
      ensures RunPosted(port.messages, old(port.messages), YearsPerRun,
                        RunData(currentRunId, yearlyCarbon, yearlyTrees, yearlyBiodiversity, trees, deadTrees, scenario,
                                RunFitness(scenario, trees, yearlyCarbon, cbrt)))
    {
      ghost var sent := port.messages;
      StepNYears(YearsPerRun, env, draws, cbrt);
      RunPostedAfterReport(port.messages, sent, YearsPerRun,
                           RunData(currentRunId, yearlyCarbon, yearlyTrees, yearlyBiodiversity, trees, deadTrees, scenario,
                                   RunFitness(scenario, trees, yearlyCarbon, cbrt)));
      port.Post(Success);
    }

    /**
     * `runSimulation`: a fresh scenario, the trees it asks for, the hundred years, then
     * `success`. A species draw that throws while planting ends the handler early:
     * `completed` is false and nothing is posted.
     */
    method RunSimulation(raw: seq<real>, uTrees: real, uStrength: real,
                         speciesDraws: nat -> real, plantDraws: nat -> PlantDraw,
                         env: Env, draws: nat -> nat -> SeedDraw, cbrt: real -> real)
      returns (completed: bool)
      requires Valid() && ValidEnv(env) && |raw| == |catalog|
      modifies this, port
      ensures Valid()
      ensures scenario == Some(GenerateScenario(raw, uTrees, uStrength)) && currentRunId == old(currentRunId)
      ensures completed <==>
                Planted(catalog, scenario, PlantCount(scenario.value.numTrees, |old(trees)|), speciesDraws, plantDraws).Some?
      ensures !completed ==> State() == old(State()) && port.messages == old(port.messages)
      ensures completed ==> year == old(year) + YearsPerRun
      ensures completed ==>
                RunPosted(port.messages, old(port.messages), YearsPerRun,
                          RunData(currentRunId, yearlyCarbon, yearlyTrees, yearlyBiodiversity, trees, deadTrees, scenario,
                                  RunFitness(scenario, trees, yearlyCarbon, cbrt)))
    {
      GenerateWorkerScenario(raw, uTrees, uStrength);
      completed := AddNRandomTrees(scenario.value.numTrees, speciesDraws, plantDraws, env);
      if completed {
        RunScenario(env, draws, cbrt);
      }
    }

    /** The worker's `onmessage`: the action `runSimulation` resets the stores and runs; any other action does nothing. */
    method HandleMessage(action: string, uRunId: real, raw: seq<real>, uTrees: real, uStrength: real,
                         speciesDraws: nat -> real, plantDraws: nat -> PlantDraw,
                         env: Env, draws: nat -> nat -> SeedDraw, cbrt: real -> real)
      returns (completed: bool)
      requires Valid() && ValidEnv(env) && |raw| == |catalog|
      modifies this, port
      ensures Valid()
      ensures action != "runSimulation" ==> !completed && unchanged(this) && unchanged(port)
      ensures action == "runSimulation" ==>
                && currentRunId == Round(uRunId * RunIdRange)
                && scenario == Some(GenerateScenario(raw, uTrees, uStrength))
                && (completed <==>
                      Planted(catalog, scenario, PlantCount(scenario.value.numTrees, 0), speciesDraws, plantDraws).Some?)
                && (!completed ==>
                      trees == [] && deadTrees == [] && yearlyCarbon == [] && year == 0 &&
                      port.messages == old(port.messages))
                && (completed ==> year == YearsPerRun && RunPosted(port.messages, old(port.messages), YearsPerRun,
                      RunData(currentRunId, yearlyCarbon, yearlyTrees, yearlyBiodiversity, trees, deadTrees, scenario,
                              RunFitness(scenario, trees, yearlyCarbon, cbrt))))
    {
      if action == "runSimulation" {
        Reset(uRunId, None);
        completed := RunSimulation(raw, uTrees, uStrength, speciesDraws, plantDraws, env, draws, cbrt);
      } else {
        completed := false;
      }
    }

    /** `declusterTrees`, repelled by the overlap at maturity times the declustering strength. */
    method DeclusterTrees(env: Env)
      requires Valid()
      modifies this
      ensures Valid()
      ensures |trees| == |old(trees)|
      ensures forall k :: 0 <= k < |trees| ==> SameButPosition(trees[k], old(trees)[k])
      ensures deadTrees == old(deadTrees) && State().(trees := old(trees)) == old(State())
      ensures currentRunId == old(currentRunId) && scenario == old(scenario)
    {
      var strength := if scenario.Some? then Some(scenario.value.declusteringStrength) else None;
      var moved := Decluster(catalog, trees, MatureOverlap(strength), env);
      assert KnownSpecies(catalog, moved) by {
        forall k | 0 <= k < |moved| ensures FindSpecies(catalog, moved[k].speciesId).Some? {
          assert moved[k].speciesId == trees[k].speciesId;
        }
      }
      trees := moved;
    }
  }
}
