/** The record shapes every part of the simulator exchanges. */
module Types {
  import opened Wrappers

  /** A tree species of a catalog; `foodProductivity` is optional in the record type. */
  datatype Species = Species(
    id: string,
    color: string,
    growthRate: real,
    maxRadius: real,
    shadeTolerance: real,
    lifespan: int,
    foodProductivity: Option<real>)

  /**
   * One tree on the plot. `stemAge` is declared by the record type but no code path
   * assigns it; `isDead` is set by the health update; `currentSunIntensity` is the field
   * the rasterised shade map adds to a tree object.
   */
  datatype Tree = Tree(
    x: real,
    y: real,
    radius: real,
    speciesId: string,
    color: string,
    age: nat,
    stemAge: Option<nat>,
    sizeMultiplier: real,
    health: real,
    isDead: Option<bool>,
    currentSunIntensity: Option<real>)

  /**
   * A species-probability vector as JavaScript holds it: finite numbers, or (once a
   * normalisation has divided by a zero sum) NaN in every entry.
   */
  datatype Probabilities = Finite(values: seq<real>) | NotANumber(length: nat)
  {
    function Length(): nat {
      match this
      case Finite(ps) => |ps|
      case NotANumber(n) => n
    }

    /** Entry `i` when it is a number; `None` for NaN and for an index past the end. */
    function Entry(i: nat): Option<real> {
      if Finite? && i < |values| then Some(values[i]) else None
    }
  }

  /** The genome of the optimiser. */
  datatype Scenario = Scenario(
    speciesProbabilities: Probabilities,
    numTrees: real,
    declusteringStrength: real,
    coppiceMinRadius: real,
    coppiceChance: real,
    coppiceRadiusSpread: real)

  datatype YearlyData = YearlyData(
    carbon: seq<real>,
    trees: seq<real>,
    biodiversity: seq<real>,
    food: seq<real>)

  /**
   * One run of a scenario as the scheduler keeps it. `carbon` is absent from freshly made
   * runs; an absent `isAllocated` or `isComplete` flag reads as false everywhere.
   */
  datatype Run = Run(
    id: int,
    yearlyData: YearlyData,
    trees: seq<Tree>,
    deadTrees: seq<Tree>,
    initialTrees: seq<Tree>,
    scenario: Scenario,
    fitness: real,
    carbon: Option<real>,
    averageBiodiversity: real,
    food: real,
    isAllocated: bool,
    isComplete: bool)
}
