/**
 * The older, store-based simulation: a table of runs, each with its own trees, dead trees
 * and yearly series, of which the run whose id is `currentRunId` is the one every
 * operation reads and rewrites. It carries its own five-species catalog and a 490 x 220
 * plot. Writing a run's tree list goes through `updateTreesTo`, and `updateDeadTreesTo`
 * writes into the same `trees` field, so the health update replaces the living trees by
 * the dead ones; the model keeps that behaviour.
 */
module Store {
  import opened Wrappers
  import opened JsMath
  import opened Types
  import opened TreeSpecies
  import opened Ecology

  const Width: real := 490.0
  const Height: real := 220.0
  /** The biodiversity entry every year records, whatever the trees. */
  const RecordedBiodiversity: real := 1.0

  /** The store's own catalog: five species, no food productivity. */
  function StoreCatalog(): (c: seq<Species>)
    ensures |c| == 5
    ensures Ids(c) == ["oak", "maple", "linden", "hickory", "hazel"]
    ensures WellFormed(c)
  {
    [ Species("oak", "red", 1.0, 100.0, 0.4, 200, None),
      Species("maple", "rebeccapurple", 1.5, 80.0, 0.45, 400, None),
      Species("linden", "green", 0.6, 80.0, 0.5, 150, None),
      Species("hickory", "teal", 0.8, 60.0, 0.5, 500, None),
      Species("hazel", "blue", 0.8, 15.0, 0.65, 80, None) ]
  }

  /** `getRandomTreeSpecies`: the index `Math.floor(u * length)`, inside the catalog for a draw in [0, 1). */
  function SpeciesIndex(u: real, n: nat): (k: int)
    ensures 0.0 <= u < 1.0 && n > 0 ==> 0 <= k < n
    ensures 0.0 <= u && n > 0 ==> k as real <= u * n as real < k as real + 1.0
  {
    UnitScale(u, n as real);
    (u * n as real).Floor
  }

  /** One run of the table with its three yearly series. */
  datatype StoreRun = StoreRun(
    id: int,
    carbon: seq<real>,
    treeCounts: seq<real>,
    biodiversity: seq<real>,
    trees: seq<Tree>,
    deadTrees: seq<Tree>)

  /** `runs.find(run => run.id === id)`: the first run with that id. */
  function FindRun(runs: seq<StoreRun>, id: int): (r: Option<StoreRun>)
    ensures r.Some? ==> r.value.id == id && r.value in runs
  {
    if runs == [] then None
    else if runs[0].id == id then Some(runs[0])
    else FindRun(runs[1..], id)
  }

  /** No run is found exactly when no run has the id. */
  lemma {:induction false} FindRunNone(runs: seq<StoreRun>, id: int)
    ensures FindRun(runs, id).None? <==> forall i :: 0 <= i < |runs| ==> runs[i].id != id
  {
    if runs != [] && runs[0].id != id {
      FindRunNone(runs[1..], id);
      assert forall i :: 1 <= i < |runs| ==> runs[i] == runs[1..][i - 1];
    }
  }

  predicate UniqueIds(runs: seq<StoreRun>)
  {
    forall i, j :: 0 <= i < j < |runs| ==> runs[i].id != runs[j].id
  }

  /** With distinct ids, the run found for `runs[k].id` is `runs[k]`. */
  lemma {:induction false} FindRunAt(runs: seq<StoreRun>, k: nat)
    requires UniqueIds(runs) && k < |runs|
    ensures FindRun(runs, runs[k].id) == Some(runs[k])
  {
    if k > 0 {
      assert runs[0].id != runs[k].id;
      assert UniqueIds(runs[1..]) by {
        forall a, b | 0 <= a < b < |runs[1..]|
          ensures runs[1..][a].id != runs[1..][b].id
        {
          assert runs[1..][a] == runs[a + 1] && runs[1..][b] == runs[b + 1];
        }
      }
      FindRunAt(runs[1..], k - 1);
    }
  }

  /** `get(currentRun)?.trees || []`. */
  function TreesOf(r: Option<StoreRun>): seq<Tree>
  {
    if r.Some? then r.value.trees else []
  }

  /** `get(currentRun)?.deadTrees || []`. */
  function DeadTreesOf(r: Option<StoreRun>): seq<Tree>
  {
    if r.Some? then r.value.deadTrees else []
  }

  /** The two ways the store rewrites a run: a new tree list, or one more entry in each series. */
  datatype RunEdit = SetTrees(newTrees: seq<Tree>) | AppendYear(newCarbon: real, newCount: real)

  function Edit(e: RunEdit, r: StoreRun): (s: StoreRun)
    ensures s.id == r.id && s.deadTrees == r.deadTrees
  {
    match e
    case SetTrees(ts) => r.(trees := ts)
    case AppendYear(c, n) =>
      r.(carbon := r.carbon + [c], treeCounts := r.treeCounts + [n],
         biodiversity := r.biodiversity + [RecordedBiodiversity])
  }

  function EditOf(e: RunEdit, r: Option<StoreRun>): Option<StoreRun>
  {
    if r.None? then None else Some(Edit(e, r.value))
  }

  /** `runs.update(prevRuns => prevRuns.map(run => run.id !== id ? run : edited(run)))`. */
  function EditRuns(runs: seq<StoreRun>, id: int, e: RunEdit): seq<StoreRun>
  {
    seq(|runs|, i requires 0 <= i < |runs| => if runs[i].id == id then Edit(e, runs[i]) else runs[i])
  }

  /** `a` is `b` with, at most, the runs of id `id` changed, and every id kept. */
  predicate SameOthers(a: seq<StoreRun>, b: seq<StoreRun>, id: int)
  {
    && |a| == |b|
    && forall i :: 0 <= i < |a| ==> a[i].id == b[i].id && (b[i].id != id ==> a[i] == b[i])
  }

  lemma SameOthersTrans(a: seq<StoreRun>, b: seq<StoreRun>, c: seq<StoreRun>, id: int)
    requires SameOthers(a, b, id) && SameOthers(b, c, id)
    ensures SameOthers(a, c, id)
  {
  }

  /**
   * An edit by id keeps the number of runs, every other run and every id, and the run
   * then found for the id is the edited one.
   */
  lemma {:induction false} EditRunsEffect(runs: seq<StoreRun>, id: int, e: RunEdit)
    ensures SameOthers(EditRuns(runs, id, e), runs, id)
    ensures FindRun(EditRuns(runs, id, e), id) == EditOf(e, FindRun(runs, id))
  {
    if runs != [] {
      assert EditRuns(runs, id, e)[1..] == EditRuns(runs[1..], id, e);
      EditRunsEffect(runs[1..], id, e);
    }
  }

  /** Every run's trees name catalog species, and no run has recorded dead trees. */
  predicate KnownRuns(catalog: seq<Species>, runs: seq<StoreRun>)
  {
    forall i :: 0 <= i < |runs| ==> KnownSpecies(catalog, runs[i].trees) && runs[i].deadTrees == []
  }

  /** The run `reset` appends: empty tree lists and a 0 in each series. */
  function FreshRun(id: int): StoreRun
  {
    StoreRun(id, [0.0], [0.0], [0.0], [], [])
  }

  /** The year body applied to the current run `r`; `draws(i)` are the seed draws of tree `i`. */
  function StoreYear(catalog: seq<Species>, r: StoreRun, env: Env, draws: nat -> SeedDraw): StoreRun
    requires KnownSpecies(catalog, r.trees) && ValidEnv(env)
  {
    var grown := GrowAll(catalog, r.trees);
    GrownTreesAreAged(catalog, r.trees);
    var health := HealthAll(catalog, grown, env);
    // `updateDeadTreesTo` stores the dead trees into `trees`
    var kept := r.deadTrees + Dying(health);
    r.(trees := Prune(kept + AllSeedlings(env, kept, draws), Width, Height),
       carbon := r.carbon + [Carbon(grown + r.deadTrees)],
       treeCounts := r.treeCounts + [|grown| as real],
       biodiversity := r.biodiversity + [RecordedBiodiversity])
  }

  /**
   * A year keeps the run's id and dead trees and adds one entry to each series: the carbon
   * of the grown and the dead trees, the grown count, and 1 for biodiversity. Because the
   * dead trees are written into `trees`, the trees left are the dead ones inside the plot
   * and their seedlings, which inherit the dead flag: every living tree is gone.
   */
  lemma StoreYearFacts(catalog: seq<Species>, r: StoreRun, env: Env, draws: nat -> SeedDraw)
    requires KnownSpecies(catalog, r.trees) && ValidEnv(env)
    requires forall t :: t in r.deadTrees ==> IsDead(t)
    ensures var y := StoreYear(catalog, r, env, draws);
            && y.id == r.id && y.deadTrees == r.deadTrees
            && y.carbon == r.carbon + [Carbon(GrowAll(catalog, r.trees) + r.deadTrees)]
            && y.treeCounts == r.treeCounts + [|r.trees| as real]
            && y.biodiversity == r.biodiversity + [RecordedBiodiversity]
            && forall t :: t in y.trees ==> InBounds(t, Width, Height) && IsDead(t)
  {
    var grown := GrowAll(catalog, r.trees);
    GrownTreesAreAged(catalog, r.trees);
    var health := HealthAll(catalog, grown, env);
    FilterMembers(health);
    DeadStayDead(env, r.deadTrees + Dying(health), draws);
  }

  /**
   * The trees a store year leaves: the old and new dead trees inside the plot and their
   * seedlings, at most `round(2 * sqrt(age) / 3)` from each such parent aged 10 or more.
   */
  lemma StoreYearTrees(catalog: seq<Species>, r: StoreRun, env: Env, draws: nat -> SeedDraw)
    requires KnownSpecies(catalog, r.trees) && ValidEnv(env)
    requires ExactAgeSqrt(env) && UnitCounts(draws, |r.deadTrees| + |r.trees|)
    ensures (GrownTreesAreAged(catalog, r.trees);
            var kept := r.deadTrees + Dying(HealthAll(catalog, GrowAll(catalog, r.trees), env));
            var y := StoreYear(catalog, r, env, draws);
            && |kept| <= |r.deadTrees| + |r.trees|
            && |y.trees| <= |kept| + SeedlingCap(env, kept)
            && forall t :: t in y.trees ==> InBounds(t, Width, Height) && (t in kept || FreshSeedlingOf(t, kept)))
  {
    var grown := GrowAll(catalog, r.trees);
    GrownTreesAreAged(catalog, r.trees);
    var health := HealthAll(catalog, grown, env);
    PartitionCount(health);
    SeedingPassFacts(env, r.deadTrees + Dying(health), draws, Width, Height);
  }

  /** Dead trees seed dead seedlings; pruning keeps them on the plot. */
  lemma DeadStayDead(env: Env, kept: seq<Tree>, draws: nat -> SeedDraw)
    requires forall t :: t in kept ==> IsDead(t)
    ensures forall t :: t in Prune(kept + AllSeedlings(env, kept, draws), Width, Height) ==> InBounds(t, Width, Height) && IsDead(t)
  {
    var all := kept + AllSeedlings(env, kept, draws);
    PruneMembers(all, Width, Height);
    forall t | t in Prune(all, Width, Height)
      ensures InBounds(t, Width, Height) && IsDead(t)
    {
      if t !in kept {
        SeedlingsAreYoung(env, kept, draws, t);
        var j :| 0 <= j < |kept| && kept[j].age >= MinReproductiveAge && SeedlingOf(t, kept[j]);
        assert kept[j] in kept && t.isDead == kept[j].isDead;
      }
    }
  }

  /** Each species draw of `[0, 1)` picks a catalog entry. */
  predicate UnitSpeciesDraws(count: nat, speciesDraws: nat -> real)
  {
    forall j :: 0 <= j < count ==> 0.0 <= speciesDraws(j) < 1.0
  }

  /** The trees the planting loop of `addNRandomTrees` creates: tree `j` from draws `j`. */
  function StorePlanted(catalog: seq<Species>, count: nat, speciesDraws: nat -> real, plantDraws: nat -> PlantDraw): seq<Tree>
    requires |catalog| > 0 && UnitSpeciesDraws(count, speciesDraws)
  {
    seq(count, j requires 0 <= j < count =>
      PlantedTree(catalog[SpeciesIndex(speciesDraws(j), |catalog|)], plantDraws(j), Width, Height))
  }

  /** Exactly `count` new trees, of catalog species, healthy, unaged and on the plot when the draws are. */
  lemma StorePlantedFacts(catalog: seq<Species>, count: nat, speciesDraws: nat -> real, plantDraws: nat -> PlantDraw)
    requires WellFormed(catalog) && |catalog| > 0 && UnitSpeciesDraws(count, speciesDraws)
    ensures var ts := StorePlanted(catalog, count, speciesDraws, plantDraws);
            && |ts| == count
            && KnownSpecies(catalog, ts)
            && (forall j :: 0 <= j < count ==> ts[j].age == 0 && ts[j].radius == 0.0 && ts[j].health == 1.0)
            && (forall j :: 0 <= j < count && ValidDraw(plantDraws(j)) ==>
                  InBounds(ts[j], Width, Height) && 0.5 <= ts[j].sizeMultiplier < 1.0)
  {
    var ts := StorePlanted(catalog, count, speciesDraws, plantDraws);
    forall j | 0 <= j < count ensures FindSpecies(catalog, ts[j].speciesId).Some? {
      FindSpeciesAt(catalog, SpeciesIndex(speciesDraws(j), |catalog|));
    }
  }

  /** The module-level stores: the run table, the current run id and the year. */
  class RunStore {
    const catalog: seq<Species>
    var runs: seq<StoreRun>
    var currentRunId: int
    var year: int

    /**
     * Distinct run ids, none above the current one, every tree of a catalog species and,
     * since nothing writes them, no recorded dead trees.
     */
    ghost predicate Valid()
      reads this
    {
      && WellFormed(catalog)
      && |catalog| > 0
      && UniqueIds(runs)
      && (forall i :: 0 <= i < |runs| ==> runs[i].id <= currentRunId)
      && KnownRuns(catalog, runs)
    }

    /** The derived `currentRun` store. */
    function CurrentRun(): Option<StoreRun>
      reads this
    {
      FindRun(runs, currentRunId)
    }

    /** The current run's trees and dead trees name catalog species. */
    lemma CurrentKnown()
      requires Valid()
      ensures KnownSpecies(catalog, TreesOf(CurrentRun())) && DeadTreesOf(CurrentRun()) == []
    {
      if CurrentRun().Some? {
        var i :| 0 <= i < |runs| && runs[i] == CurrentRun().value;
      }
    }

    /** An edit of the current run that keeps its trees known keeps the table valid. */
    lemma EditKeepsValid(e: RunEdit)
      requires Valid()
      requires e.SetTrees? ==> KnownSpecies(catalog, e.newTrees)
      ensures var r := EditRuns(runs, currentRunId, e);
              && UniqueIds(r)
              && (forall i :: 0 <= i < |r| ==> r[i].id <= currentRunId)
              && KnownRuns(catalog, r)
    {
      EditRunsEffect(runs, currentRunId, e);
    }

    constructor ()
      ensures Valid() && catalog == StoreCatalog()
      ensures runs == [] && currentRunId == 0 && year == 0
    {
      catalog := StoreCatalog();
      runs := [];
      currentRunId := 0;
      year := 0;
    }

    /** `reset`: a fresh run with id `currentRunId + 1` is appended and becomes current; year 0. */
    method Reset()
      requires Valid()
      modifies this
      ensures Valid()
      ensures currentRunId == old(currentRunId) + 1 && year == 0
      ensures runs == old(runs) + [FreshRun(currentRunId)]
      ensures CurrentRun() == Some(FreshRun(currentRunId))
    {
      var newRunId := currentRunId + 1;
      runs := runs + [FreshRun(newRunId)];
      currentRunId := newRunId;
      year := 0;
      FindRunAt(runs, |runs| - 1);
    }

    /** `updateTreesTo`: the current run's `trees` becomes `newTrees`. */
    method UpdateTreesTo(newTrees: seq<Tree>)
      requires Valid() && KnownSpecies(catalog, newTrees)
      modifies this
      ensures Valid()
      ensures runs == EditRuns(old(runs), currentRunId, SetTrees(newTrees))
      ensures SameOthers(runs, old(runs), currentRunId)
      ensures CurrentRun() == EditOf(SetTrees(newTrees), old(CurrentRun()))
      ensures currentRunId == old(currentRunId) && year == old(year)
    {
      EditKeepsValid(SetTrees(newTrees));
      EditRunsEffect(runs, currentRunId, SetTrees(newTrees));
      runs := EditRuns(runs, currentRunId, SetTrees(newTrees));
    }

    /**
     * `updateDeadTreesTo`: like `updateTreesTo`, it writes its argument into the current
     * run's `trees`; the run's `deadTrees` stay as they were.
     */
    method UpdateDeadTreesTo(newDeadTrees: seq<Tree>)
      requires Valid() && KnownSpecies(catalog, newDeadTrees)
      modifies this
      ensures Valid()
      ensures runs == EditRuns(old(runs), currentRunId, SetTrees(newDeadTrees))
      ensures SameOthers(runs, old(runs), currentRunId)
      ensures CurrentRun() == EditOf(SetTrees(newDeadTrees), old(CurrentRun()))
      ensures DeadTreesOf(CurrentRun()) == DeadTreesOf(old(CurrentRun()))
      ensures currentRunId == old(currentRunId) && year == old(year)
    {
      EditKeepsValid(SetTrees(newDeadTrees));
      EditRunsEffect(runs, currentRunId, SetTrees(newDeadTrees));
      runs := EditRuns(runs, currentRunId, SetTrees(newDeadTrees));
    }

    /** `calculateCarbon`: the current run's living and dead radii times 100, and 0 without a current run. */
    method CalculateCarbon() returns (carbonSum: real)
      ensures carbonSum == Carbon(TreesOf(CurrentRun()) + DeadTreesOf(CurrentRun()))
      ensures CurrentRun().None? ==> carbonSum == 0.0
    {
      carbonSum := CarbonSum(TreesOf(CurrentRun()), DeadTreesOf(CurrentRun()));
    }

    /** `pruneOverflowTrees` on the 490 x 220 plot. */
    method PruneOverflowTrees()
      requires Valid()
      modifies this
      ensures Valid()
      ensures SameOthers(runs, old(runs), currentRunId)
      ensures CurrentRun() == EditOf(SetTrees(Prune(TreesOf(old(CurrentRun())), Width, Height)), old(CurrentRun()))
      ensures currentRunId == old(currentRunId) && year == old(year)
    {
      var current := TreesOf(CurrentRun());
      CurrentKnown();
      PruneMembers(current, Width, Height);
      KnownSubset(catalog, Prune(current, Width, Height), current);
      UpdateTreesTo(Prune(current, Width, Height));
    }

    /**
     * `calculateTreeHealth`: the health pass over the current run's trees; the living
     * trees are written, then overwritten by the old dead trees and the newly dead ones.
     */
    method CalculateTreeHealth(env: Env)
      requires Valid() && ValidEnv(env) && AllAged(TreesOf(CurrentRun()))
      modifies this
      ensures Valid()
      ensures SameOthers(runs, old(runs), currentRunId)
      ensures CurrentRun() ==
                EditOf(SetTrees(DeadTreesOf(old(CurrentRun())) + Dying(HealthAll(catalog, TreesOf(old(CurrentRun())), env))),
                       old(CurrentRun()))
      ensures currentRunId == old(currentRunId) && year == old(year)
    {
      ghost var before := runs;
      ghost var run := CurrentRun();
      CurrentKnown();
      var newTrees := HealthAll(catalog, TreesOf(CurrentRun()), env);
      HealthKeepsKnown(catalog, TreesOf(CurrentRun()), env);
      UpdateTreesTo(Living(newTrees));
      ghost var middle := runs;
      CurrentKnown();
      var dead := DeadTreesOf(CurrentRun()) + Dying(newTrees);
      assert dead == Dying(newTrees);
      UpdateDeadTreesTo(dead);
      SameOthersTrans(runs, middle, before, currentRunId);
    }

    /** `propagateSeeds`: the seedlings of the current run's trees are appended, then the plot is pruned. */
    method PropagateSeeds(env: Env, draws: nat -> SeedDraw)
      requires Valid()
      modifies this
      ensures Valid()
      ensures SameOthers(runs, old(runs), currentRunId)
      ensures CurrentRun() ==
                EditOf(SetTrees(Prune(TreesOf(old(CurrentRun())) + AllSeedlings(env, TreesOf(old(CurrentRun())), draws), Width, Height)),
                       old(CurrentRun()))
      ensures currentRunId == old(currentRunId) && year == old(year)
    {
      ghost var before := runs;
      var current := TreesOf(CurrentRun());
      CurrentKnown();
      var seedlings := CollectSeedlings(env, current, draws);
      var all := current + seedlings;
      assert KnownSpecies(catalog, all) by {
        forall k | 0 <= k < |all| ensures FindSpecies(catalog, all[k].speciesId).Some? {
          if k >= |current| {
            assert all[k] in AllSeedlings(env, current, draws);
            SeedlingsAreYoung(env, current, draws, all[k]);
          }
        }
      }
      UpdateTreesTo(all);
      ghost var middle := runs;
      PruneOverflowTrees();
      SameOthersTrans(runs, middle, before, currentRunId);
    }

    /** The first part of a year: the year count and then growth of the current run's trees. */
    method GrowTrees()
      requires Valid()
      modifies this
      ensures Valid() && AllAged(TreesOf(CurrentRun()))
      ensures SameOthers(runs, old(runs), currentRunId)
      ensures CurrentRun() == EditOf(SetTrees(GrowAll(catalog, TreesOf(old(CurrentRun())))), old(CurrentRun()))
      ensures year == old(year) + 1 && currentRunId == old(currentRunId)
    {
      year := year + 1;
      CurrentKnown();
      GrownTreesAreAged(catalog, TreesOf(CurrentRun()));
      UpdateTreesTo(GrowAll(catalog, TreesOf(CurrentRun())));
    }

    /** The `runs.update` of the year body: one entry in each series of the current run. */
    method RecordYear(newCarbon: real)
      requires Valid()
      modifies this
      ensures Valid()
      ensures SameOthers(runs, old(runs), currentRunId)
      ensures CurrentRun() == EditOf(AppendYear(newCarbon, |TreesOf(old(CurrentRun()))| as real), old(CurrentRun()))
      ensures year == old(year) && currentRunId == old(currentRunId)
    {
      var e := AppendYear(newCarbon, |TreesOf(CurrentRun())| as real);
      EditKeepsValid(e);
      EditRunsEffect(runs, currentRunId, e);
      runs := EditRuns(runs, currentRunId, e);
    }

    /** The growth and the records of a year. */
    method GrowAndRecord()
      requires Valid()
      modifies this
      ensures Valid() && AllAged(TreesOf(CurrentRun()))
      ensures SameOthers(runs, old(runs), currentRunId)
      ensures old(CurrentRun()).None? ==> CurrentRun().None?
      ensures old(CurrentRun()).Some? ==>
                var r := old(CurrentRun()).value;
                var grown := GrowAll(catalog, r.trees);
                CurrentRun() == Some(r.(trees := grown,
                                        carbon := r.carbon + [Carbon(grown + r.deadTrees)],
                                        treeCounts := r.treeCounts + [|grown| as real],
                                        biodiversity := r.biodiversity + [RecordedBiodiversity]))
      ensures year == old(year) + 1 && currentRunId == old(currentRunId)
    {
      ghost var before := runs;
      GrowTrees();
      ghost var middle := runs;
      var newCarbon := CalculateCarbon();
      RecordYear(newCarbon);
      SameOthersTrans(runs, middle, before, currentRunId);
    }

    /** The body of one year of `stepNYears` (the timer that schedules it is not modelled). */
    method StepYear(env: Env, draws: nat -> SeedDraw)
      requires Valid() && ValidEnv(env)
      modifies this
      ensures Valid()
      ensures SameOthers(runs, old(runs), currentRunId)
      ensures old(CurrentRun()).None? ==> CurrentRun().None?
      ensures old(CurrentRun()).Some? ==>
                KnownSpecies(catalog, old(CurrentRun()).value.trees) &&
                CurrentRun() == Some(StoreYear(catalog, old(CurrentRun()).value, env, draws))
      ensures year == old(year) + 1 && currentRunId == old(currentRunId)
    {
      ghost var before := runs;
      CurrentKnown();
      GrowAndRecord();
      ghost var first := runs;
      CalculateTreeHealth(env);
      ghost var second := runs;
      PropagateSeeds(env, draws);
      SameOthersTrans(runs, second, first, currentRunId);
      SameOthersTrans(runs, first, before, currentRunId);
    }

    /** The planting loop of `addNRandomTrees`: a species by `Math.floor(u * 5)`, then position and size. */
    method PlantTrees(numTrees: int, speciesDraws: nat -> real, plantDraws: nat -> PlantDraw)
      returns (newTrees: seq<Tree>)
      requires Valid() && UnitSpeciesDraws(if numTrees > 0 then numTrees else 0, speciesDraws)
      ensures newTrees == StorePlanted(catalog, if numTrees > 0 then numTrees else 0, speciesDraws, plantDraws)
    {
      ghost var count := if numTrees > 0 then numTrees else 0;
      newTrees := [];
      var index: nat := 0;
      while index < numTrees
        invariant index <= count
        invariant newTrees == StorePlanted(catalog, index, speciesDraws, plantDraws)
      {
        var species := catalog[SpeciesIndex(speciesDraws(index), |catalog|)];
        newTrees := newTrees + [PlantedTree(species, plantDraws(index), Width, Height)];
        index := index + 1;
      }
    }

    /** `declusterTrees` with the constant repulsion 1. */
    method DeclusterTrees(env: Env)
      requires Valid()
      modifies this
      ensures Valid()
      ensures SameOthers(runs, old(runs), currentRunId)
      ensures CurrentRun().Some? <==> old(CurrentRun()).Some?
      ensures CurrentRun().Some? ==>
                && CurrentRun().value == old(CurrentRun()).value.(trees := CurrentRun().value.trees)
                && MovedOnly(CurrentRun().value.trees, old(CurrentRun()).value.trees)
      ensures currentRunId == old(currentRunId) && year == old(year)
    {
      var current := CurrentRun();
      if current.Some? {
        CurrentKnown();
        var moved := Decluster(catalog, current.value.trees, Constant(1.0), env);
        assert KnownSpecies(catalog, moved) by {
          forall k | 0 <= k < |moved| ensures FindSpecies(catalog, moved[k].speciesId).Some? {
            assert moved[k].speciesId == current.value.trees[k].speciesId;
          }
        }
        UpdateTreesTo(moved);
      } else {
        EditRunsEffect(runs, currentRunId, SetTrees([]));
      }
    }

    /** `addNRandomTrees(n)`: `n` new trees appended to the current run's trees, then declustered. */
    method AddNRandomTrees(numTrees: int, speciesDraws: nat -> real, plantDraws: nat -> PlantDraw, env: Env)
      requires Valid() && UnitSpeciesDraws(if numTrees > 0 then numTrees else 0, speciesDraws)
      modifies this
      ensures Valid()
      ensures SameOthers(runs, old(runs), currentRunId)
      ensures CurrentRun().Some? <==> old(CurrentRun()).Some?
      ensures CurrentRun().Some? ==>
                && CurrentRun().value == old(CurrentRun()).value.(trees := CurrentRun().value.trees)
                && MovedOnly(CurrentRun().value.trees,
                             old(CurrentRun()).value.trees +
                             StorePlanted(catalog, if numTrees > 0 then numTrees else 0, speciesDraws, plantDraws))
      ensures currentRunId == old(currentRunId) && year == old(year)
    {
      ghost var before := runs;
      var newTrees := PlantTrees(numTrees, speciesDraws, plantDraws);
      StorePlantedFacts(catalog, if numTrees > 0 then numTrees else 0, speciesDraws, plantDraws);
      CurrentKnown();
      var all := TreesOf(CurrentRun()) + newTrees;
      assert KnownSpecies(catalog, all) by {
        forall k | 0 <= k < |all| ensures FindSpecies(catalog, all[k].speciesId).Some? {
          if k >= |TreesOf(CurrentRun())| {
            assert all[k] == newTrees[k - |TreesOf(CurrentRun())|];
          }
        }
      }
      UpdateTreesTo(all);
      ghost var middle := runs;
      DeclusterTrees(env);
      SameOthersTrans(runs, middle, before, currentRunId);
    }
  }
}
