# Reforestation simulator: a verified model of its core

The reforestation simulator grows a forest plot year by year. Trees of six species grow,
shade each other, lose or regain health, die of shade or old age, and drop seedlings. Each
simulated century is scored by a fitness that combines carbon with biodiversity. A genetic
algorithm searches over planting scenarios: a scheduler hands runs to simulation workers,
collects their results, and breeds the next population from elites, crossovers, one random
newcomer and mutants.

This project models, in Dafny:

- the species catalog (`tree_species.dfy`);
- the number formatter `prettifyNumber` (`helpers.dfy`);
- the sunlight reduction of the shade map (`shade_map.dfy`);
- the yearly ecology shared by both simulations (`ecology.dfy`), i.e. growth, shade and
  health, mortality, seeding, pruning, carbon, biodiversity, nearest neighbours and the
  declustering pass;
- the simulation worker, as a class over its module-level stores (`simulation_worker.dfy`);
- the older store-based simulation, as a class over its run table (`store.dfy`);
- the genetic-algorithm helpers of the simulator (`evolution.dfy`);
- the run scheduler of the simulator (`scheduler.dfy`). Its transitions are functions over
  a state snapshot, and a `Simulator` class performs them step by step.

Modelling choices that hold throughout:

- Numbers are exact `real`s; ages are `nat`.
- `Math.round(x)` is `(x + 0.5).Floor`. `Math.round(Math.sqrt(s))` is characterised exactly
  by squares: it is the natural number `r` with `(r - 1/2)^2 <= s < (r + 1/2)^2`.
- `toFixed(d)` is rounding to `d` decimals. `Math.PI` is its double-precision decimal.
- A NaN that the source can produce is a distinct value:
  - `None` for a shade fraction of 0 / 0, a sunlight reading of 0 / 0 and a fitness
    divided by a zero penalty;
  - `NotANumber` for a probability vector whose sum is 0.
- `Math.random()` and the lodash `random`, `getRandomId` and `getRandomArrayElement` draws
  are parameters: a number per draw, or a function from the draw's index to it. The seedling
  count of a parent is computed from its own draw, as the source does.
- `Math.pow(age, 0.8)`, the disc area `Math.PI * r * r`, the unit vector of the
  declustering pass and `Math.sqrt(age)` of the seeding count come in as an `Env` value.
  The model assumes only what the properties need: the power is positive for age at least
  1, the area is 0 exactly at radius 0, and the seedling bounds take the root to be exact.
- The cube root in the fitness penalty is a parameter. The cube root in parent selection is
  characterised exactly: the index `k` satisfies `(k/20)^3 <= u < ((k+1)/20)^3`.
- Where the source throws (an unknown species id, a parent index past the table), the model
  returns `None` and the rest of that step does not happen.

The store's `updateDeadTreesTo` writes its argument into the run's `trees` field, not into
`deadTrees`. The model keeps that behaviour.

## Model

| member | source | states |
|---|---|---|
| TreeSpecies.Catalog | src/lib/treeSpecies.ts:3-68 | six species in the order oak, maple, hickory, ash, linden, beech; ids pairwise distinct; every shade tolerance in [0, 1]; growth rate, maximum radius and lifespan positive; no entry sets a food productivity |
| TreeSpecies.FindSpecies | src/lib/simulation.worker.ts:112-114 | a species is found exactly when some catalog entry carries the id; the one found carries that id and is a catalog entry |
| TreeSpecies.FindSpeciesAt | src/lib/simulation.worker.ts:112-114 | in a catalog with distinct ids, looking up the id of entry i returns entry i |
| JsMath.Round | src/lib/simulation.worker.ts:160 | `Math.round`: the integer r with r - 1/2 <= x < r + 1/2, so halves round up |
| JsMath.RoundedSqrt | src/lib/simulation.worker.ts:411-416 | the rounded square root of a non-negative s: s < (r + 1/2)^2, and (r - 1/2)^2 <= s once r > 0 |
| JsMath.FixedTwoBounds | src/lib/simulation.worker.ts:550 | rounding to two decimals keeps a value of [-1, 1] in [-1, 1] and keeps its sign |
| JsMath.Fixed | src/lib/simulation.worker.ts:550 | `Number(x.toFixed(d))`: rounded to d decimals, ties away from zero; `FixedTwoBounds` keeps [-1, 1] and the sign, `ClampedWeight` bounds the weight draw |
| Helpers.PrettifyNumber | src/lib/helpers.ts:1-15 | `prettifyNumber` as written; its branches, its small counts and its comma branch are stated by `PrettifyBranches`, `SmallCountsUnchanged` and `CommaBranch` |
| Helpers.PrettifyBranches | src/lib/helpers.ts:3-13 | the branches are exclusive and tried in descending order: the output ends in "B" iff count > 1e9, ends in "M" iff 1e6 < count <= 1e9, holds exactly one comma iff 1e3 < count <= 1e6, and is `String(count)` for count <= 1000 |
| Helpers.SmallCountsUnchanged | src/lib/helpers.ts:2-14 | a count of at most 1000 comes out as `String(count)` |
| Helpers.CommaBranch | src/lib/helpers.ts:7-10 | for 1e3 < count <= 1e6 the output is `String(count)` with one comma inserted at the slice index of 5 - length; deleting the comma gives back `String(count)` |
| Helpers.FourDigitsAgree | src/lib/helpers.ts:8-10 | for a four-digit count the code as written and the grouped form agree ("1,234") |
| Helpers.CommaAt | src/lib/helpers.ts:9-10 | the output is one character longer than the digits; a five-digit count gets a leading comma, a six- or seven-digit count gets its comma after the fifth character |
| Helpers.MisplacedComma | src/lib/helpers.ts:9-10 | for 1e4 <= count <= 1e6 the comma is never in front of the last three digits: ",12345" for five digits, before the last digit for six |
| Helpers.PrettifyNumberGrouped | src/lib/helpers.ts:7-10 | the corrected formatter, a comma in front of the last three digits; stated by `GroupedCommaBranch`, and equal to the code for four digits by `FourDigitsAgree` |
| Helpers.GroupedCommaBranch | src/lib/helpers.ts:7-10 | the corrected form of this branch puts the one comma in front of the last three digits, and deleting it gives back `String(count)` |
| ShadeMap.ShadeThreshold | src/lib/shadeMap.ts:3-4 | the shade threshold `Math.round(0.1 * 255)` is 26 |
| ShadeMap.AlphaContribution | src/lib/shadeMap.ts:52 | an alpha byte contributes a value in [0, 26]: 26 at alpha <= 26, 0 at alpha >= 52, and 52 - alpha in between |
| ShadeMap.AlphaSum | src/lib/shadeMap.ts:48-55 | the summed alpha bytes above the threshold; bounded by `AlphaSumBounds`, its extremes by `AlphaSumExtremes`, and computed by the loop `SumAlpha` |
| ShadeMap.AlphaCount | src/lib/shadeMap.ts:48-55 | the number of alpha bytes read; a quarter of the window by `AlphaCountQuarter` |
| ShadeMap.AlphaCountQuarter | src/lib/shadeMap.ts:48-55 | the pixel count is the number of alpha bytes (index 3 mod 4), one per four bytes |
| ShadeMap.AlphaSumBounds | src/lib/shadeMap.ts:48-55 | the alpha sum lies between 0 and 26 per counted pixel |
| ShadeMap.AlphaSumExtremes | src/lib/shadeMap.ts:50-53 | an unshaded window (every byte <= 26) sums to 26 per pixel; a window shaded twice over (every byte >= 52) sums to 0 |
| ShadeMap.SumAlpha | src/lib/shadeMap.ts:46-55 | the byte loop returns the alpha sum and the count of alpha bytes |
| ShadeMap.SunIntensity | src/lib/shadeMap.ts:56-59 | the reading is a number exactly when the window holds at least one pixel, and then lies in [0, 1] |
| ShadeMap.SunIntensityExtremes | src/lib/shadeMap.ts:56-59 | an unshaded window reads full sun (1); a window shaded twice over reads 0 |
| ShadeMap.WindowOf | src/lib/shadeMap.ts:39-41 | the window's corner is the floor of the tree's bounding corner, its side is the rounded diameter or 1 when that rounds to 0, so it is at least 1 |
| ShadeMap.FullWindowHasIntensity | src/lib/shadeMap.ts:41-59 | a full window of side >= 1 always gives a numeric reading |
| ShadeMap.RecalculateSunIntensities | src/lib/shadeMap.ts:37-61 | every tree's `currentSunIntensity` becomes the reading of its own window, and no other field of any tree changes |
| Sampling.Normalize | src/lib/simulator.ts:272-278 | normalising keeps the length, gives NaN exactly when the sum is 0, and otherwise maps each entry p to p / sum |
| Sampling.NormalizedSumsToOne | src/lib/simulator.ts:272-278 | with a non-zero sum the normalised entries sum to 1 |
| Sampling.NormalizedInUnit | src/lib/simulator.ts:272-278 | normalised non-negative weights lie in [0, 1] |
| Sampling.ZeroSumIff | src/lib/simulator.ts:281-283 | non-negative weights sum to 0 exactly when all are 0, which is how the all-zero clamp reaches the zero divisor |
| Sampling.ThresholdStep | src/lib/simulation.worker.ts:81-87 | the k-th cumulative threshold is the previous one plus the k-th probability |
| Sampling.FirstAbove | src/lib/simulation.worker.ts:92-99 | the chosen index is the first whose cumulative threshold exceeds u; none is chosen when no threshold does |
| Sampling.SampleIndex | src/lib/simulation.worker.ts:92-99 | a chosen index lies inside the probability vector |
| Sampling.ZeroNeverChosen | src/lib/simulation.worker.ts:92-99 | a species of probability 0 is never chosen for u >= 0 |
| Sampling.AboveTotalChoosesNothing | src/lib/simulation.worker.ts:92-106 | a draw at or above the total of non-negative weights chooses nothing |
| Sampling.BelowTotalChoosesSome | src/lib/simulation.worker.ts:92-106 | a draw below the total always chooses a species |
| Sampling.ChooseIndex | src/lib/simulation.worker.ts:81-99 | the two loops (thresholds, then the first one above u) choose exactly the index `SampleIndex` names |
| Ecology.Grow | src/lib/simulation.worker.ts:222-233 | growth adds exactly one year of age; the radius gains growthRate x 2 x sizeMultiplier only while below maxRadius x sizeMultiplier and otherwise stays; no other field changes; a tree of unknown species is unchanged |
| Ecology.GrowthBounds | src/lib/simulation.worker.ts:222-233 | the radius never decreases, and a tree below the cap plus one increment stays below it |
| Ecology.GrowAll | src/lib/simulation.worker.ts:222-233 | growing the list grows every tree in place and keeps the count |
| Ecology.GrownTreesAreAged | src/lib/simulation.worker.ts:222-233 | after growth every tree still names a catalog species and has age at least 1 |
| Ecology.Distance | src/lib/simulation.worker.ts:411-416 | the distance is the rounded Euclidean distance of the centres, and 0 for trees at one point |
| Ecology.DistanceSymmetric | src/lib/simulation.worker.ts:411-416 | the distance from a to b equals the distance from b to a |
| Ecology.Shades | src/lib/simulation.worker.ts:418-427 | another tree whose rounded centre distance is below the sum of the radii and that is older than three quarters of the base tree (the filter at lines 351-353); `Shaders` collects exactly these |
| Ecology.ShadersBelow | src/lib/simulation.worker.ts:349-354 | the shaders among the first k trees, each listed once in list order |
| Ecology.Shaders | src/lib/simulation.worker.ts:349-354 | a tree shades the base tree iff it is another tree, its distance is below the sum of the radii and its age exceeds 0.75 x the base tree's age; the base tree never shades itself |
| Ecology.OverlapContribution | src/lib/simulation.worker.ts:356-359 | `0.433 * side^2 * 2` for the overlap depth as side, never negative; summed by `TotalOverlapArea` |
| Ecology.TotalOverlapArea | src/lib/simulation.worker.ts:355-360 | the overlap loop sums each shader's overlap area, and the total is non-negative |
| Ecology.Fraction | src/lib/simulation.worker.ts:361-362 | the shade fraction is NaN exactly for radius 0 without overlap, otherwise in [0, 1]: 1 for radius 0 with overlap, 0 without overlap |
| Ecology.ShadeFraction | src/lib/simulation.worker.ts:361-362 | a tree's shade fraction, when a number, is at most 1 and non-negative |
| Ecology.NewHealth | src/lib/simulation.worker.ts:364-372 | above the tolerance health strictly drops; otherwise it becomes min(1, health + 0.3) |
| Ecology.HealthUpdate | src/lib/simulation.worker.ts:364-378 | only health and `isDead` change; the tree is dead iff its new health is below 0 or its age exceeds the lifespan |
| Ecology.HealthAll | src/lib/simulation.worker.ts:347-379 | every tree is updated in place against the unchanged list, keeping the count |
| Ecology.DeathRule | src/lib/simulation.worker.ts:374-378 | after the update a tree is dead exactly when its health is below 0 or its age exceeds its lifespan |
| Ecology.Living | src/lib/simulation.worker.ts:382 | the trees not flagged dead, in order; by `FilterMembers` exactly those, and by `PartitionCount` they and `Dying` split the list |
| Ecology.Dying | src/lib/simulation.worker.ts:381 | the trees flagged dead, in order; by `FilterMembers` exactly those, and by `PartitionCount` they and `Living` split the list |
| Ecology.FilterMembers | src/lib/simulation.worker.ts:381-382 | the living list holds exactly the non-dead trees, the dying list exactly the dead ones |
| Ecology.PartitionCount | src/lib/simulation.worker.ts:381-385 | living and newly dead together are the previous trees, as a multiset and in number |
| Ecology.Seedling | src/lib/simulation.worker.ts:396-402 | a seedling copies every field of its parent except age 0, radius 0 and a position within twice the parent's radius on each axis |
| Ecology.SeedlingCount | src/lib/simulation.worker.ts:395 | the `times` count `Math.round(u * maxSeedlings * sqrt(age) / 3)`, none below 1; bracketed by `SeedlingCountBracket` and bounded by `SeedlingCountBound` |
| Ecology.SeedlingCountBracket | src/lib/simulation.worker.ts:395 | `Math.round(u * maxSeedlings * Math.sqrt(age) / 3)` seedlings, with `maxSeedlings` = 2: the count is 0 exactly when the product is below 1/2, and otherwise lies within 1/2 of it |
| Ecology.SeedlingCountBound | src/lib/simulation.worker.ts:395 | for the exact root of the age and a draw in [0, 1), the count is at most `round(2 * sqrt(age) / 3)` and less than `2 * sqrt(age) / 3 + 1/2` |
| Ecology.YoungestParentDropsAtMostTwo | src/lib/simulation.worker.ts:395 | a parent of age 10 drops at most two seedlings |
| Ecology.SeedlingsOf | src/lib/simulation.worker.ts:394-404 | a parent younger than 10 drops no seedling; an older one drops the rounded count of its count draw, seedling k placed by offset draw k |
| Ecology.SeedlingsOfBound | src/lib/simulation.worker.ts:394-404 | with the exact root of its age and a count draw in [0, 1), a tree drops at most `round(2 * sqrt(age) / 3)` seedlings |
| Ecology.ParentCapBound | src/lib/simulation.worker.ts:394-404 | the same bound, read as the tree's cap: 0 below age 10 |
| Ecology.SeedlingsUpToBound | src/lib/simulation.worker.ts:392-405 | when each tree keeps to its cap, the first k trees drop at most the sum of their caps |
| Ecology.AllSeedlingsBound | src/lib/simulation.worker.ts:392-405 | one seeding pass drops at most the sum of the caps of its parents |
| Ecology.SeedlingsHaveParents | src/lib/simulation.worker.ts:389-405 | every seedling comes from a tree of age at least 10 among the trees seen so far |
| Ecology.SeedlingsAreYoung | src/lib/simulation.worker.ts:389-405 | every seedling has age 0 and radius 0 and is the seedling of some tree aged 10 or more |
| Ecology.PushSeedlings | src/lib/simulation.worker.ts:395-403 | the `times` loop of one parent of age 10 or more appends exactly that parent's seedlings, in draw order |
| Ecology.CollectSeedlings | src/lib/simulation.worker.ts:389-405 | the push loop collects exactly the seedlings of all trees, in tree order |
| Ecology.SeedingPassFacts | src/lib/simulation.worker.ts:389-409 | seeding then pruning leaves at most the parents plus their caps; each survivor is inside the plot and is a parent or a fresh seedling of a parent aged 10 or more |
| Ecology.Prune | src/lib/simulation.worker.ts:323-327 | pruning never adds trees |
| Ecology.PruneMembers | src/lib/simulation.worker.ts:323-327 | a tree survives pruning iff it was there and lies within 0 <= x <= width, 0 <= y <= height |
| Ecology.PruneAppend | src/lib/simulation.worker.ts:406-408 | pruning old trees followed by seedlings keeps the surviving old trees as a prefix ahead of the surviving seedlings, each in order |
| Ecology.PruneIdempotent | src/lib/simulation.worker.ts:323-327 | pruning twice is pruning once |
| Ecology.PruneKeepsInside | src/lib/simulation.worker.ts:323-327 | a list already inside the plot is unchanged |
| Ecology.HealthKeepsKnown | src/lib/simulation.worker.ts:381-385 | living and newly dead trees still name catalog species |
| Ecology.SeedingKeepsKnown | src/lib/simulation.worker.ts:389-409 | after seeding and pruning every tree still names a catalog species |
| Ecology.Carbon | src/lib/simulation.worker.ts:64-73 | 100 carbon per unit of radius over the trees; additive by `CarbonAppend`, never negative by `CarbonNonNegative`, computed by `CarbonSum` |
| Ecology.CarbonAppend | src/lib/simulation.worker.ts:64-73 | the carbon of two lists is the sum of their carbons |
| Ecology.CarbonNonNegative | src/lib/simulation.worker.ts:64-73 | trees of non-negative radius hold non-negative carbon |
| Ecology.CarbonSum | src/lib/simulation.worker.ts:64-73 | the two loops give 100 x (the living radii plus the dead radii) |
| Ecology.DistinctIdsAreKeys | src/lib/simulation.worker.ts:48-50 | the species keys are distinct, each belongs to some tree, and every tree's species is a key |
| Ecology.CountOf | src/lib/simulation.worker.ts:48 | a species count never exceeds the number of trees |
| Ecology.Fractions | src/lib/simulation.worker.ts:48-51 | one fraction per distinct species |
| Ecology.Biodiversity | src/lib/simulation.worker.ts:45-56 | `Math.pow(1 - product of the species shares, 500)`; its range is stated by `BiodiversityRange` |
| Ecology.BiodiversityRange | src/lib/simulation.worker.ts:45-56 | the score lies in [0, 1) and is 0 exactly when the trees belong to at most one species, in particular when there are none |
| Ecology.ClosestBelow | src/lib/simulation.worker.ts:429-440 | the candidate of least distance among the first k, ties to the earlier one; none exactly when there is no candidate |
| Ecology.TakeTwo | src/lib/simulation.worker.ts:429-441 | the first neighbour is the closest candidate and the second the closest one after it |
| Ecology.NearestTrees | src/lib/simulation.worker.ts:429-441 | at most two neighbours, each another tree closer than 50 |
| Ecology.NearestAreNearest | src/lib/simulation.worker.ts:429-441 | the two neighbours are distinct, the first is no farther than any other tree, the second no farther than any tree but the first, and one is found when some tree lies within 50 |
| Ecology.RepulsionOf | src/lib/simulation.worker.ts:484 | the mature overlap times the declustering strength, `None` for NaN; `Repel` moves a tree only when it is a positive number |
| Ecology.Repel | src/lib/simulation.worker.ts:472-489 | one move changes only the base tree, only its position, and only when the repulsion is a positive number |
| Ecology.Decluster | src/lib/simulation.worker.ts:458-496 | the fifty passes keep the tree count and every field but the positions |
| Ecology.PlantedTree | src/lib/simulation.worker.ts:575-584 | a planted tree has the species' id and colour, health 1, radius 0, age 0, a size multiplier in [0.5, 1) and a position inside the plot |
| SimulationWorker.FixedWeights | src/lib/simulation.worker.ts:549-552 | every raw weight is rounded to two decimals, in order |
| SimulationWorker.GenerateScenario | src/lib/simulation.worker.ts:548-565 | one probability per species, NaN exactly when every rounded weight is 0 and otherwise a distribution; 0 to 200 trees; a declustering strength in [0, 1] |
| SimulationWorker.WeightFacts | src/lib/simulation.worker.ts:549-559 | normalising rounded unit draws gives NaN iff they all round to 0, and otherwise entries in [0, 1] summing to 1 |
| SimulationWorker.StrengthFacts | src/lib/simulation.worker.ts:563 | a unit draw rounded to two decimals stays in [0, 1] |
| SimulationWorker.DrawSpecies | src/lib/simulation.worker.ts:75-110 | a drawn species is a catalog species |
| SimulationWorker.DrawSucceeds | src/lib/simulation.worker.ts:92-106 | with a distribution over the catalog and a unit draw, a species is always drawn |
| SimulationWorker.DrawRespectsWeights | src/lib/simulation.worker.ts:92-106 | a species of weight 0 is never drawn, and a draw at or above the total draws nothing |
| SimulationWorker.PlantCount | src/lib/simulation.worker.ts:569-573 | the trees to plant bring the count up to the target, and none are planted at or above it |
| SimulationWorker.Planted | src/lib/simulation.worker.ts:573-585 | the trees the planting loop creates, or `None` where a species draw throws; stated by `PlantedFacts`, `PlantedFailsAt` and `PlantedTreesValid` |
| SimulationWorker.PlantedFacts | src/lib/simulation.worker.ts:573-585 | planting succeeds iff every species draw succeeds, and then gives one planted tree per draw, in order |
| SimulationWorker.PlantedFailsAt | src/lib/simulation.worker.ts:574-576 | one species draw that finds no species makes the whole planting fail |
| SimulationWorker.PlantedTreesValid | src/lib/simulation.worker.ts:573-585 | planted trees name catalog species, have age 0, health 1, radius 0, and lie in the plot with a size multiplier in [0.5, 1) |
| SimulationWorker.PlantingSucceeds | src/lib/simulation.worker.ts:573-585 | with a distribution and unit draws planting never fails |
| SimulationWorker.LatestCarbon | src/lib/simulation.worker.ts:41-44 | the carbon store is 0 before the first year and otherwise one of the yearly entries |
| SimulationWorker.Fitness | src/lib/simulation.worker.ts:156-161 | `calculateFitness`; its NaN case and signs are stated by `FitnessSigns`, its growth in carbon by `FitnessMonotone` |
| SimulationWorker.FitnessSigns | src/lib/simulation.worker.ts:156-161 | the fitness is finite exactly when the penalty is non-zero; it has the sign of the carbon and is 0 without biodiversity |
| SimulationWorker.RunFitness | src/lib/simulation.worker.ts:156-161 | the fitness a finished run reports; stated by `RunFitnessFacts` |
| SimulationWorker.RunFitnessFacts | src/lib/simulation.worker.ts:156-161 | NaN without a scenario or exactly for a zero penalty; never negative for a positive penalty and non-negative yearly carbon |
| SimulationWorker.FitnessMonotone | src/lib/simulation.worker.ts:156-161 | with a positive penalty more carbon never lowers the fitness |
| SimulationWorker.YearStep | src/lib/simulation.worker.ts:221-269 | one loop pass adds one year and one entry to each series (the carbon of the grown trees with the dead, the tree count, the biodiversity of the grown trees), and keeps the old dead trees as a prefix; the trees are bounded by `YearTrees` |
| SimulationWorker.YearTrees | src/lib/simulation.worker.ts:221-269 | the trees after a year are living trees of the health pass inside the plot and their fresh seedlings, at most the living count plus the sum of `round(2 * sqrt(age) / 3)` over living parents aged 10 or more |
| SimulationWorker.Years | src/lib/simulation.worker.ts:213-276 | n passes add n years and n entries to each series, keep the earlier entries and dead trees as prefixes, and keep every tree's species known |
| SimulationWorker.Worker.constructor | src/lib/simulation.worker.ts:17-40 | the stores start with no trees, each series [0], year 0, run id 0 and no scenario |
| SimulationWorker.Worker.Reset | src/lib/simulation.worker.ts:116-144 | the run id becomes the rounded draw times 1e9, the three series are emptied, the trees become the initial trees or none, no dead trees, year 0 |
| SimulationWorker.Worker.ClearRunHistory | src/lib/simulation.worker.ts:146-149 | only the run id changes, to 0 |
| SimulationWorker.Worker.GenerateWorkerScenario | src/lib/simulation.worker.ts:548-565 | only the scenario changes, to the generated one |
| SimulationWorker.Worker.CalculateCarbon | src/lib/simulation.worker.ts:64-73 | the carbon of the living trees followed by the dead ones |
| SimulationWorker.Worker.GetRandomTreeSpecies | src/lib/simulation.worker.ts:75-110 | the species the scenario's probabilities and the draw select |
| SimulationWorker.Worker.CalculateTreeHealth | src/lib/simulation.worker.ts:329-386 | the trees become the living updated trees in order, the newly dead are appended to the dead trees, the total count is kept, nothing else changes |
| SimulationWorker.Worker.PruneOverflowTrees | src/lib/simulation.worker.ts:323-327 | the trees become the pruned trees, nothing else changes |
| SimulationWorker.Worker.PropagateSeeds | src/lib/simulation.worker.ts:389-409 | the trees become the pruned list of old trees followed by their seedlings (the rounded count of each parent's count draw), nothing else changes |
| SimulationWorker.Worker.GrowAndRecord | src/lib/simulation.worker.ts:221-240 | the trees are grown, each series gets one entry of the grown state and the year goes up by one |
| SimulationWorker.Worker.StepYear | src/lib/simulation.worker.ts:221-269 | the state is one `YearStep` further, and one live update of this run is posted |
| SimulationWorker.Worker.StepFrom | src/lib/simulation.worker.ts:213-276 | one more loop pass takes the state from k to k + 1 years and posts one live update |
| SimulationWorker.Worker.RunYears | src/lib/simulation.worker.ts:213-276 | the loop reaches the state n years on and posts n live updates of this run |
| SimulationWorker.Worker.StepNYears | src/lib/simulation.worker.ts:210-316 | after n years it posts the run's final data with its fitness, behind the n live updates |
| SimulationWorker.Worker.PlantTrees | src/lib/simulation.worker.ts:572-585 | the planting loop yields exactly the planted trees of the draws, or fails where a draw does |
| SimulationWorker.Worker.PlantAndDecluster | src/lib/simulation.worker.ts:569-587 | on success the trees are the old ones followed by the planted ones, moved but otherwise unchanged; on failure they stay |
| SimulationWorker.Worker.AddNRandomTrees | src/lib/simulation.worker.ts:567-596 | the count reaches max(initial count, n), new trees follow the old ones, only the trees change, and the recursive call adds none |
| SimulationWorker.Worker.RunScenario | src/lib/simulation.worker.ts:206-208 | the run advances 100 years and posts its live updates, its final data and `success` |
| SimulationWorker.Worker.RunSimulation | src/lib/simulation.worker.ts:165-204 | the scenario is generated; the run completes iff planting succeeds, then runs 100 years and posts its result; otherwise nothing else changes and nothing is posted |
| SimulationWorker.Worker.HandleMessage | src/lib/simulation.worker.ts:6-15 | only `runSimulation` acts: reset with a drawn id, then the simulation; every other action changes nothing |
| SimulationWorker.Worker.DeclusterTrees | src/lib/simulation.worker.ts:458-496 | the pass keeps the count and every field but the positions, and nothing else changes |
| Store.StoreCatalog | src/stores/store.ts:25-66 | five species oak, maple, linden, hickory, hazel with distinct ids and well-formed parameters |
| Store.SpeciesIndex | src/stores/store.ts:152-154 | the index is floor(u x n), which lies in [0, n) for u in [0, 1) |
| Store.FindRun | src/stores/store.ts:84-87 | a found run carries the id and is in the table |
| Store.FindRunNone | src/stores/store.ts:84-87 | no run is found exactly when no run carries the id |
| Store.FindRunAt | src/stores/store.ts:84-87 | with distinct ids, the run of an entry's id is that entry |
| Store.Edit | src/stores/store.ts:398-408 | editing a run keeps its id and dead trees |
| Store.EditRuns | src/stores/store.ts:398-408 | the run-table map by id; stated by `EditRunsEffect` |
| Store.EditRunsEffect | src/stores/store.ts:398-408 | editing the current run leaves every other run as it was, and the current run is the edited one |
| Store.StoreYear | src/stores/store.ts:199-242 | the store year body on the current run; stated by `StoreYearFacts` and `StoreYearTrees` |
| Store.StoreYearFacts | src/stores/store.ts:199-242 | one year keeps id and dead trees, appends the carbon of the grown trees with the dead, the tree count and the constant biodiversity 1, and leaves only dead trees inside the plot; the trees are bounded by `StoreYearTrees` |
| Store.StoreYearTrees | src/stores/store.ts:199-242 | the trees after a store year are the kept dead trees inside the plot and their fresh seedlings, at most their count plus the sum of `round(2 * sqrt(age) / 3)` over kept parents aged 10 or more |
| Store.DeadStayDead | src/stores/store.ts:305-324 | seeding and pruning a list of dead trees leaves dead trees inside the plot |
| Store.StorePlanted | src/stores/store.ts:461-474 | the trees the store planting loop creates; stated by `StorePlantedFacts` |
| Store.StorePlantedFacts | src/stores/store.ts:461-474 | n planted trees of catalog species, age 0, radius 0, health 1, inside the plot with a size multiplier in [0.5, 1) |
| Store.RunStore.constructor | src/stores/store.ts:82-83 | an empty run table, run id 0 and year 0 |
| Store.RunStore.Reset | src/stores/store.ts:164-183 | exactly one fresh run is appended with id (current id or 0) + 1, empty trees and dead trees and every series [0]; it becomes current and the year is 0 |
| Store.RunStore.UpdateTreesTo | src/stores/store.ts:398-408 | only the current run's trees change; the table length, every other run and that run's other fields stay |
| Store.RunStore.UpdateDeadTreesTo | src/stores/store.ts:410-420 | the argument is written into the current run's trees, its dead trees stay, every other run stays |
| Store.RunStore.CalculateCarbon | src/stores/store.ts:141-150 | 100 x (the current run's tree radii plus its dead tree radii), and 0 without a current run |
| Store.RunStore.PruneOverflowTrees | src/stores/store.ts:244-248 | the current run's trees become those within 0 <= x <= 490 and 0 <= y <= 220, in order |
| Store.RunStore.CalculateTreeHealth | src/stores/store.ts:250-302 | the current run's trees become its old dead trees followed by the newly dead trees, and its dead trees are unchanged |
| Store.RunStore.PropagateSeeds | src/stores/store.ts:305-324 | the current run's trees become the pruned list of its trees followed by their seedlings (the rounded count of each parent's count draw) |
| Store.RunStore.GrowTrees | src/stores/store.ts:202-215 | the current run's trees are grown and the year goes up by one |
| Store.RunStore.RecordYear | src/stores/store.ts:221-233 | one entry is appended to each series of the current run: the carbon, the tree count and 1 |
| Store.RunStore.GrowAndRecord | src/stores/store.ts:202-233 | the current run is grown and gets one more entry in each series, every other run stays |
| Store.RunStore.StepYear | src/stores/store.ts:201-240 | the current run becomes its state one year on, every other run stays, and the year goes up by one |
| Store.RunStore.PlantTrees | src/stores/store.ts:461-474 | the loop yields exactly the planted trees of the draws |
| Store.RunStore.DeclusterTrees | src/stores/store.ts:364-396 | only the positions of the current run's trees change |
| Store.RunStore.AddNRandomTrees | src/stores/store.ts:460-477 | the current run's trees become its old trees followed by exactly n new ones, moved but otherwise unchanged |
| Evolution.NumCrossovers | src/lib/simulator.ts:423 | 12 crossovers in a population of 20 |
| Evolution.NumRandomNewIndividuals | src/lib/simulator.ts:433 | one random newcomer |
| Evolution.NumMutants | src/lib/simulator.ts:439 | 5 mutants, so that 2 elites + 12 + 1 + 5 make exactly 20 |
| Evolution.RandomInt | src/lib/simulator.ts:287 | an integer draw lies between its bounds |
| Evolution.RandomFloat | src/lib/simulator.ts:288-291 | a real draw lies between its bounds |
| Evolution.ClampedWeight | src/lib/simulator.ts:282 | a weight is clamped at 0 from below and at most 1 for a unit draw |
| Evolution.InitialWeights | src/lib/simulator.ts:281-283 | one clamped, non-negative weight per catalog species |
| Evolution.GenerateScenario | src/lib/simulator.ts:280-294 | `generateScenario`; its field ranges and order are stated by `GenerateScenarioFacts` |
| Evolution.GenerateScenarioFacts | src/lib/simulator.ts:280-294 | one probability per species, NaN iff every weight is 0, otherwise a distribution; 100 to 200 trees, strength in [0, 1], coppice chance in [0, 0.2], coppice radius in [5, 15], spread in [2, 15] |
| Evolution.NormalizedDistribution | src/lib/simulator.ts:272-278 | normalised non-negative weights, when finite, form a distribution |
| Evolution.NormalizeEntries | src/lib/simulator.ts:272-278 | normalising entries that may be NaN keeps the length and is finite only when every entry is a number |
| Evolution.NormalizeEntriesDistribution | src/lib/simulator.ts:382-384 | a finite result of renormalising non-negative entries is a distribution |
| Evolution.MutationMultiplier | src/lib/simulator.ts:359-368 | the multiplier lies in [0, 2) for a unit draw and is 1 at the centre draw |
| Evolution.ScaledField | src/lib/simulator.ts:375-381 | a scaled non-negative field stays in [0, 2 x field] |
| Evolution.Mutant | src/lib/simulator.ts:370-390 | `generateMutantFromParent`; stated by `MutantScalars` and `MutantProbabilities` |
| Evolution.MutantScalars | src/lib/simulator.ts:370-381 | every scalar field of a mutant is scaled into [0, 2 x parent] and the coppice chance stays at most 1 |
| Evolution.ScaledEntries | src/lib/simulator.ts:382-384 | the probabilities are scaled entrywise, each a number exactly where the parent's is |
| Evolution.MutantProbabilities | src/lib/simulator.ts:382-384 | the mutant's probabilities keep their length, stay NaN after NaN, and form a distribution when finite |
| Evolution.Recombine | src/lib/simulator.ts:341-352 | the recombination part of `generateCrossoverFromParents`; stated by `RecombinedEntries` and `RecombineFacts` |
| Evolution.Crossover | src/lib/simulator.ts:341-358 | `generateCrossoverFromParents`: the mutant of the recombined child; the child is stated by `RecombineFacts`, the mutation by `MutantScalars` and `MutantProbabilities` |
| Evolution.RecombinedEntries | src/lib/simulator.ts:349-351 | entry i of the child's probabilities is entry i of one parent's |
| Evolution.RecombineFacts | src/lib/simulator.ts:341-351 | before mutation each scalar field equals that field of one parent, the probabilities keep their length and stay a distribution |
| Evolution.InsertByFitness | src/lib/simulator.ts:395 | one insertion step of the stable sort; stated by `InsertByFitnessFacts` |
| Evolution.InsertByFitnessFacts | src/lib/simulator.ts:395 | inserting a run into a list sorted by ascending fitness keeps it sorted and adds exactly that run |
| Evolution.SortByFitness | src/lib/simulator.ts:395 | lodash `sortBy(runs, 'fitness')`; ascending and a permutation by `SortByFitnessFacts`, last run fittest by `LastIsFittest` |
| Evolution.SortByFitnessFacts | src/lib/simulator.ts:395 | the fitness order is ascending and a permutation of the runs |
| Evolution.LastIsFittest | src/lib/simulator.ts:488 | the last run after sorting has the highest fitness |
| Evolution.Elites | src/lib/simulator.ts:406 | the elites are two runs, or all runs of a shorter table |
| Evolution.ElitesAreFittest | src/lib/simulator.ts:406 | the elites are runs of the table in descending fitness, and no other run is fitter than the last elite |
| Evolution.ParentIndex | src/lib/simulator.ts:394 | the parent index lies in [0, 20) |
| Evolution.ParentIndexBracket | src/lib/simulator.ts:394 | the index k is floor(cube root(u) x 20): (k/20)^3 <= u < ((k+1)/20)^3 |
| Evolution.ParentIndexUnique | src/lib/simulator.ts:394 | the index satisfying that bracket is the parent index |
| Evolution.SelectParent | src/lib/simulator.ts:392-396 | the parent is the run at the parent index of the ascending order, and there is one iff the table reaches that index |
| Evolution.FitterHalfLikelier | src/lib/simulator.ts:392-394 | every draw from 1/8 on picks from the fitter half of a full table |
| Evolution.EmptyRun | src/lib/simulator.ts:230-245 | a new run has the id and scenario, unallocated, incomplete, fitness 0 and no carbon |
| Evolution.Complete | src/lib/simulator.ts:447-452 | a kept elite stays as it was; a new scenario becomes an empty run |
| Evolution.FullTableParentsInRange | src/lib/simulator.ts:392-396 | with a full table every parent draw finds a parent |
| Evolution.PushElites | src/lib/simulator.ts:406-411 | the elite loop appends the elites in order |
| Evolution.PushCrossovers | src/lib/simulator.ts:423-430 | the crossover loop appends exactly 12 children, or fails iff some parent draw finds no parent |
| Evolution.PushNewcomers | src/lib/simulator.ts:433-436 | the newcomer loop appends the generated scenarios |
| Evolution.PushMutants | src/lib/simulator.ts:439-444 | the mutant loop appends exactly 5 mutants of elites |
| Evolution.Partials | src/lib/simulator.ts:400-445 | `newRunPartials`; stated by `FirstRoundPopulation`, `LaterRoundPopulation` and `LaterRoundFailure`, and computed by `BuildPartials` and `BuildLaterPartials` |
| Evolution.BuildPartials | src/lib/simulator.ts:400-445 | the push loops build exactly the specified population parts |
| Evolution.BuildLaterPartials | src/lib/simulator.ts:404-445 | once an elite exists, the pushes succeed iff every parent draw finds a parent, and then give the elites, 12 crossovers, 1 newcomer and 5 mutants in that order |
| Evolution.NewPopulation | src/lib/simulator.ts:398-455 | the new run table; stated by `FirstRoundPopulation`, `LaterRoundPopulation` and `LaterRoundFailure`, computed by `SelectNewPopulation` |
| Evolution.SelectNewPopulation | src/lib/simulator.ts:398-455 | the method returns exactly the specified new population |
| Evolution.FirstRoundPopulation | src/lib/simulator.ts:402-403 | round 1 yields 20 fresh empty runs of generated scenarios |
| Evolution.LaterRoundPopulation | src/lib/simulator.ts:404-454 | a later round over a full table yields exactly 20 runs: the 2 elites kept as they were, then 12 crossovers, 1 newcomer and 5 mutants, each new run unallocated and incomplete with its drawn id |
| Evolution.LaterRoundFailure | src/lib/simulator.ts:404-445 | a later round fails exactly when the table is empty or a parent draw finds no parent |
| Evolution.Leader | src/lib/simulator.ts:201-214 | the running maximum and its id; stated by `LeaderFacts`, computed by `RunIdWithHighestFitness` |
| Evolution.LeaderFacts | src/lib/simulator.ts:201-214 | the leader's fitness is at least every run's and at least 0; id 0 without a positive fitness; otherwise the id of the first run of that fitness |
| Evolution.RunIdWithHighestFitness | src/lib/simulator.ts:201-214 | the max loop returns the leader's id |
| Scheduler.InitialState | src/lib/simulator.ts:26-49 | no runs, rounds or best run, round 0, not running, paused or complete, an empty queue and no posted message |
| Scheduler.InitialStateValid | src/lib/simulator.ts:26-49 | the initial state satisfies the scheduler invariant |
| Scheduler.FirstUnallocated | src/lib/simulator.ts:303 | the first run in list order without `isAllocated`, or none when every run is allocated |
| Scheduler.UnallocatedCountZero | src/lib/simulator.ts:67 | no run is unallocated exactly when every run is allocated |
| Scheduler.UnallocatedCountMark | src/lib/simulator.ts:313-322 | allocating one unallocated run lowers the unallocated count by exactly one |
| Scheduler.MarkAllocated | src/lib/simulator.ts:313-322 | sets `isAllocated` on the runs of an id; stated by `MarkAllocatedOne`, `UnallocatedCountMark` and `MapsKeepIds` |
| Scheduler.MarkAllocatedOne | src/lib/simulator.ts:313-322 | with distinct ids the map sets only that run's flag |
| Scheduler.ReplaceById | src/lib/simulator.ts:55-61 | replaces the runs of an id by the incoming run; stated by `ReplaceByIdOne`, `ReplaceByIdAbsent` and `MapsKeepIds` |
| Scheduler.ReplaceByIdOne | src/lib/simulator.ts:55-61 | with distinct ids the incoming run takes its namesake's place, and nothing else moves |
| Scheduler.ReplaceByIdAbsent | src/lib/simulator.ts:55-61 | a run of an unknown id changes nothing |
| Scheduler.MapsKeepIds | src/lib/simulator.ts:313-322 | neither map changes an id, so distinct ids stay distinct |
| Scheduler.DispatchStep | src/lib/simulator.ts:302-324 | a dispatch changes only the table and the posted messages, and keeps the table length |
| Scheduler.DispatchAll | src/lib/simulator.ts:329-331 | dispatching to each worker changes only the table and the posted messages |
| Scheduler.DispatchStepEffect | src/lib/simulator.ts:302-324 | with distinct ids a dispatch is a no-op iff no run is unallocated; otherwise it posts the first unallocated run to the worker and allocates exactly it |
| Scheduler.DispatchAllEffect | src/lib/simulator.ts:326-335 | dispatching to each worker serves the first min(workers, unallocated) workers in order, one run each |
| Scheduler.PopulationDispatch | src/lib/simulator.ts:326-335 | running the population changes only the table and the posted messages |
| Scheduler.BestOf | src/lib/simulator.ts:488 | the best run is a run of the table |
| Scheduler.BestOfIsFittest | src/lib/simulator.ts:488 | no run of the table is fitter than the best run |
| Scheduler.Archived | src/lib/simulator.ts:498-502 | an archived round is the table with every run's trees and dead trees emptied |
| Scheduler.MaxFitnessOrZero | src/lib/simulator.ts:473-478 | the fitness of the last run of `sortBy(runs, 'fitness')`, or 0; stated by `MaxFitnessIsMax` |
| Scheduler.LatestMaxFitness | src/lib/simulator.ts:474-479 | the maximum the ratio compares with: the last archived round at `maxRounds`, else the run table; used and stated by `ImprovementFacts` |
| Scheduler.ImprovementStep | src/lib/simulator.ts:471-484 | only the fitness ratio changes; what it becomes is stated by `ImprovementFacts` |
| Scheduler.MaxFitnessIsMax | src/lib/simulator.ts:473-478 | the maximum fitness of a round is 0 for an empty round and otherwise the fitness of one of its runs, at least that of every run |
| Scheduler.ImprovementFacts | src/lib/simulator.ts:471-484 | with no round nothing changes; when the best fitness of the first round and the latest one (the last archived round at `maxRounds`, else the run table) are both non-zero, the ratio times the first is the latest, otherwise nothing changes; the ratio is positive for positive maxima and at least 1 when the latest is no smaller |
| Scheduler.CompletionStep | src/lib/simulator.ts:457-469 | the simulation stops, unpauses, completes, and shows the run of highest fitness |
| Scheduler.PopulationStep | src/lib/simulator.ts:398-455 | only the table and the current run id change |
| Scheduler.RecordBest | src/lib/simulator.ts:488-491 | only the best run changes |
| Scheduler.ArchiveRound | src/lib/simulator.ts:498-505 | only the rounds archive changes |
| Scheduler.RecordBestFacts | src/lib/simulator.ts:488-491 | the best run changes only to the fittest run of the table, with a positive fitness strictly above the best so far |
| Scheduler.StartRound | src/lib/simulator.ts:510-513 | `selectNewPopulation` then `runPopulation`; valid by `StartRoundValid` |
| Scheduler.StartRoundValid | src/lib/simulator.ts:510-513 | a new round from a valid state always gets a population and keeps the state valid |
| Scheduler.RecordAndArchiveValid | src/lib/simulator.ts:486-505 | recording and archiving keep the state valid and leave the table, the round and the queue alone |
| Scheduler.AdvanceRound | src/lib/simulator.ts:507-514 | complete at `maxRounds`, else start the next round; stated by `NextRoundAdvances` and `NextRoundCompletes` |
| Scheduler.NextRoundStep | src/lib/simulator.ts:486-515 | `attemptToRunNextRound`; stated by `NextRoundAdvances`, `NextRoundCompletes`, `NextRoundValid` and `NextRoundRecords` |
| Scheduler.NextRoundAdvances | src/lib/simulator.ts:507-514 | below 20 rounds the round count goes up by one and the state stays valid |
| Scheduler.NextRoundCompletes | src/lib/simulator.ts:507-508 | at 20 rounds the simulation completes and stops, and the round stays |
| Scheduler.NextRoundValid | src/lib/simulator.ts:486-515 | the next round keeps the state valid and never takes the round count past 20 |
| Scheduler.NextRoundRecords | src/lib/simulator.ts:486-505 | the best run changes only to a fitter run of the table, and a round is archived, trees emptied, exactly when the table is non-empty |
| Scheduler.ResultRecorded | src/lib/simulator.ts:52-64 | a result replaces its run by id, updates the fitness ratio and becomes the current run |
| Scheduler.MessageStep | src/lib/simulator.ts:51-115 | `handleMessage`; valid by `MessageValid`, the `runData` branches by `ResultRecorded` and `RunDataBranches` |
| Scheduler.RunDataStep | src/lib/simulator.ts:52-80 | the `runData` case: record the result, then `AfterResult`; stated by `ResultRecorded` and `RunDataBranches` |
| Scheduler.AfterResult | src/lib/simulator.ts:66-80 | queue while paused, dispatch to the sender, or start the next round; stated by `RunDataBranches` |
| Scheduler.MessageValid | src/lib/simulator.ts:51-115 | every message keeps the scheduler invariant |
| Scheduler.RunDataBranches | src/lib/simulator.ts:66-80 | after a result exactly one branch applies: paused, the sender is queued and nothing is posted; an unallocated run, one run is posted to the sender; no unfinished run, the next round starts; otherwise nothing else happens |
| Scheduler.Broadcast | src/lib/simulator.ts:530-536 | one pause or resume message per worker, in worker order |
| Scheduler.ToggleStep | src/lib/simulator.ts:517-556 | `toggleRunSimulation`; valid by `ToggleValid`, pausing by `TogglePauses`, resuming by `ToggleResumeReplays` and `ToggleResumeAllComplete` |
| Scheduler.ResumeStep | src/lib/simulator.ts:541-548 | after `resume`: the next round, or the queued dispatches first in first out; stated by `ToggleResumeReplays` and `ToggleResumeAllComplete` |
| Scheduler.ToggleValid | src/lib/simulator.ts:517-556 | toggling keeps the scheduler invariant |
| Scheduler.TogglePauses | src/lib/simulator.ts:519-532 | pausing stops, marks paused, posts pause to every worker and changes nothing else |
| Scheduler.ToggleResumeReplays | src/lib/simulator.ts:533-548 | resuming with unfinished runs posts resume to every worker, then replays the queued dispatches once each in FIFO order and empties the queue |
| Scheduler.ToggleResumeAllComplete | src/lib/simulator.ts:541-543 | resuming with every run complete starts the next round and leaves the queue untouched |
| Scheduler.Simulator.constructor | src/lib/simulator.ts:26-49 | the stores start in the initial state |
| Scheduler.Simulator.DispatchNextRunToWorker | src/lib/simulator.ts:302-324 | the stores move exactly as `DispatchStep` says |
| Scheduler.Simulator.DispatchToEach | src/lib/simulator.ts:329-331 | the forEach over the workers moves the stores as `DispatchAll` says |
| Scheduler.Simulator.RunPopulation | src/lib/simulator.ts:326-335 | the stores move as `PopulationDispatch` says |
| Scheduler.Simulator.UpdateOverallFitnessImprovement | src/lib/simulator.ts:471-484 | the stores move as `ImprovementStep` says |
| Scheduler.Simulator.CompleteSimulation | src/lib/simulator.ts:457-469 | the stores move as `CompletionStep` says |
| Scheduler.Simulator.SelectNewPopulation | src/lib/simulator.ts:398-455 | the table becomes the new population, reporting whether one was built |
| Scheduler.Simulator.AttemptToRunNextRound | src/lib/simulator.ts:486-515 | the stores move as `NextRoundStep` says |
| Scheduler.Simulator.AdvanceToNextRound | src/lib/simulator.ts:507-514 | the stores complete at 20 rounds or start the next round |
| Scheduler.Simulator.HandleMessage | src/lib/simulator.ts:51-115 | the stores move as `MessageStep` says and stay valid |
| Scheduler.Simulator.HandleRunData | src/lib/simulator.ts:52-80 | the stores move as the `runData` branch says |
| Scheduler.Simulator.PostToEachWorker | src/lib/simulator.ts:530-536 | one pause or resume message is posted to each worker and nothing else changes |
| Scheduler.Simulator.ToggleRunSimulation | src/lib/simulator.ts:517-556 | the stores move as `ToggleStep` says and stay valid |
| Scheduler.Simulator.ReplayOrAdvance | src/lib/simulator.ts:541-548 | resuming starts the next round or replays the queue |

## Left out

- Worker transport: creating workers, `loadWorkers`, `postMessage` and `onmessage` are not modelled. Posting is appending to an outbox. The worker's `runSimulation` action and the scheduler's `runScenario` messages are two separate protocols, so no round trip between them is stated.
- Svelte stores are plain fields. The derived stores are not modelled: progress percentages, average and highest carbon or biodiversity, `numSpecies`, `carbonTonsPerYearForCurrentRun`, `bestFitnessByRound`. The store's biodiversity string is also left out.
- `displayRun` and `loadRun` (src/lib/simulator.ts:221-228) do nothing but set `currentRunId`. That effect is modelled inline at their one call (simulator.ts:64): `ResultRecorded` sets `currentRunId` to the result's id. `CompletionStep` and `PopulationStep` model the places that set it directly. What is left out is loading the run into the view, which the names suggest. Their bodies do not do it.
- `reset` and `clearRunHistory` of the simulator, and the store's `run` with its timers, are user-interface plumbing outside the scheduled computation.
- The `roundComplete` and `runFinished` window events, console logging and the `Date`-based `elapsedTime` are left out. `src/lib/dispatcher.ts` is not part of this model.
- `calculateOverlaps` in the worker and the store is left out. It is an unbounded `while` loop of sqrt-based moves with no termination argument, and the worker's copy reads an undefined `currentRun`. `areAnyOverlappingTrees` goes with it.
- The canvas of the shade map is left out: creating it, drawing the shade discs and `getImageData`. The bytes a window reads are an input.
- `getRandomId` and `getRandomArrayElement` are imported but their source is not part of this model. Their results are parameters, like every `Math.random` draw.
- Helpers.PrettifyNumber: counts are integers. A fractional count is not modelled (`String(1234.5)` gives "1234.,5" in the comma branch), nor `toFixed` of a quotient of 1e21 or more, which prints exponential form.
- Floating point is exact `real` arithmetic. `Math.pow(age, 0.8)`, the disc area, the unit vector, the square root of a tree's age and the fitness cube root are parameters. No property depends on rounding error.
- Ecology.Decluster: states only that the count and all fields but the positions are kept, not the positions the fifty sqrt-based passes reach.
- SimulationWorker.Worker.DeclusterTrees: states the same count-and-fields preservation, not the positions reached.
- Store.RunStore.DeclusterTrees: states the same count-and-fields preservation, not the positions reached.
- Evolution.SortByFitnessFacts: states an ascending permutation but not the stability of lodash `sortBy` among runs of equal fitness.
- Distinct run ids are not guaranteed by the source, whose ids are random. The lemmas that need them take them as a precondition.
- Where the source throws, the model skips the rest of the step. The exception itself is not modelled.

## Findings

| source | as written | input that shows it | evidently intended | confidence | as-written member | corrected member |
|---|---|---|---|---|---|---|
| src/lib/helpers.ts:9-10 | the comma goes at slice index 5 - length, which is right only for four digits | 12345 gives ",12345" and 123456 gives "12345,6" | a comma in front of the last three digits, as the code gives for four digits (a cutoff of 1: "1,234") and as a thousands separator means: "12,345" and "123,456" | not executed | Helpers.MisplacedComma | Helpers.GroupedCommaBranch |
