/**
 * The per-tree ecology that both the worker simulation and the older run-table store
 * apply once a year: capped growth, distance and shading, the health update and the
 * living/dead partition, seeding, pruning to the plot, the carbon sum, the biodiversity
 * score, the nearest neighbours and the declustering pass. Everything here is a value
 * computation on a list of trees; the catalog and the plot size are parameters, because
 * the two callers carry different ones.
 */
module Ecology {
  import opened Wrappers
  import opened JsMath
  import opened Types
  import opened TreeSpecies

  const MinReproductiveAge: nat := 10
  const GrowthMultiplier: real := 2.0
  const SeedDistanceMultiplier: real := 4.0
  /** `maxSeedlings`: a parent drops up to about `2 * sqrt(age) / 3` seedlings a year. */
  const MaxSeedlings: real := 2.0
  /** Neighbours farther than this are ignored by the declustering pass. */
  const NeighbourRange: real := 50.0
  /** `Math.PI` to double precision. */
  const Pi: real := 3.141592653589793

  /**
   * The floating-point parts of the step: `agePow(a)` stands for `Math.pow(a, 0.8)`,
   * `discArea(r)` for `Math.PI * r * r` and `unit(base, near)` for the unit vector from
   * `base` towards `near` (a division by `Math.sqrt` of the squared distance), and
   * `ageSqrt(a)` for `Math.sqrt(a)` of a tree's age in the seeding count.
   */
  datatype Env = Env(agePow: nat -> real, discArea: real -> real, unit: (Tree, Tree) -> (real, real),
                     ageSqrt: nat -> real)

  /**
   * The only facts about those the model needs: the power is positive for `a >= 1`, and
   * the disc area is 0 for radius 0 and positive otherwise (`ExactDiscArea`).
   */
  ghost predicate ValidEnv(env: Env)
  {
    && (forall a: nat :: a >= 1 ==> env.agePow(a) > 0.0)
    && env.discArea(0.0) == 0.0
    && (forall r: real :: r != 0.0 ==> env.discArea(r) > 0.0)
  }

  function Abs(x: real): real { if x < 0.0 then -x else x }

  // ---------------------------------------------------------------- growth

  /** The radius gain of one year for a tree of species `s`. */
  function Increment(s: Species, t: Tree): real
  {
    s.growthRate * GrowthMultiplier * t.sizeMultiplier
  }

  /** One year of growth; a tree whose species the catalog does not know is returned as is. */
  function Grow(catalog: seq<Species>, t: Tree): (g: Tree)
    ensures FindSpecies(catalog, t.speciesId).None? ==> g == t
    ensures FindSpecies(catalog, t.speciesId).Some? ==>
              var s := FindSpecies(catalog, t.speciesId).value;
              && g.age == t.age + 1
              && g.(radius := t.radius, age := t.age) == t
              && (t.radius < s.maxRadius * t.sizeMultiplier ==> g.radius == t.radius + Increment(s, t))
              && (t.radius >= s.maxRadius * t.sizeMultiplier ==> g.radius == t.radius)
  {
    match FindSpecies(catalog, t.speciesId)
    case None => t
    case Some(s) =>
      var grown := if t.radius < s.maxRadius * t.sizeMultiplier then t.radius + Increment(s, t) else t.radius;
      t.(radius := grown, age := t.age + 1)
  }

  /**
   * In a well-formed catalog, growth never shrinks a tree with a non-negative size
   * multiplier, and a radius below cap plus one increment stays below it: the cap is
   * overshot by less than one year's growth.
   */
  lemma GrowthBounds(catalog: seq<Species>, t: Tree)
    requires WellFormed(catalog) && t.sizeMultiplier >= 0.0
    requires FindSpecies(catalog, t.speciesId).Some?
    ensures var s := FindSpecies(catalog, t.speciesId).value;
            var g := Grow(catalog, t);
            && Increment(s, t) >= 0.0
            && g.radius >= t.radius
            && (t.radius < s.maxRadius * t.sizeMultiplier + Increment(s, t) ==>
                  g.radius < s.maxRadius * t.sizeMultiplier + Increment(s, t))
  {
    var s := FindSpecies(catalog, t.speciesId).value;
    var i :| 0 <= i < |catalog| && catalog[i] == s;
    assert s.growthRate > 0.0;
    assert s.growthRate * GrowthMultiplier * t.sizeMultiplier >= 0.0;
  }

  function GrowAll(catalog: seq<Species>, ts: seq<Tree>): (r: seq<Tree>)
    ensures |r| == |ts|
    ensures forall i :: 0 <= i < |ts| ==> r[i] == Grow(catalog, ts[i])
  {
    seq(|ts|, i requires 0 <= i < |ts| => Grow(catalog, ts[i]))
  }

  /** After growth every tree of a known species is at least one year old and still known. */
  lemma GrownTreesAreAged(catalog: seq<Species>, ts: seq<Tree>)
    requires KnownSpecies(catalog, ts)
    ensures var g := GrowAll(catalog, ts);
            && KnownSpecies(catalog, g)
            && forall i :: 0 <= i < |g| ==> g[i].age >= 1
  {
    var g := GrowAll(catalog, ts);
    forall i | 0 <= i < |g|
      ensures FindSpecies(catalog, g[i].speciesId).Some? && g[i].age >= 1
    {
      assert FindSpecies(catalog, ts[i].speciesId).Some?;
    }
  }

  // ---------------------------------------------------------------- distance and shade

  /** `Math.round(Math.sqrt(dx * dx + dy * dy))`. */
  function Distance(a: Tree, b: Tree): (d: nat)
    ensures var s := (a.x - b.x) * (a.x - b.x) + (a.y - b.y) * (a.y - b.y);
            && s < (d as real + 0.5) * (d as real + 0.5)
            && (d > 0 ==> (d as real - 0.5) * (d as real - 0.5) <= s)
    ensures a.x == b.x && a.y == b.y ==> d == 0
  {
    var dx, dy := a.x - b.x, a.y - b.y;
    RoundedSqrt(dx * dx + dy * dy)
  }

  lemma DistanceSymmetric(a: Tree, b: Tree)
    ensures Distance(a, b) == Distance(b, a)
  {
    assert (a.x - b.x) * (a.x - b.x) == (b.x - a.x) * (b.x - a.x);
    assert (a.y - b.y) * (a.y - b.y) == (b.y - a.y) * (b.y - a.y);
  }

  /**
   * Tree `j` shades tree `i`: it is another tree (by position in the list, which is how
   * object identity shows up), the rounded centre distance is below the sum of the radii,
   * and it is older than three quarters of the base tree's age.
   */
  predicate Shades(ts: seq<Tree>, i: nat, j: nat)
    requires i < |ts| && j < |ts|
  {
    && j != i
    && (Distance(ts[i], ts[j]) as real) < ts[i].radius + ts[j].radius
    && (ts[j].age as real) > 0.75 * (ts[i].age as real)
  }

  /** The shaders of tree `i` among the first `k` trees, in list order. */
  function ShadersBelow(ts: seq<Tree>, i: nat, k: nat): (r: seq<nat>)
    requires i < |ts| && k <= |ts|
    ensures forall m :: 0 <= m < |r| ==> r[m] < k && Shades(ts, i, r[m])
    ensures forall j :: 0 <= j < k && Shades(ts, i, j) ==> j in r
    ensures forall m, n :: 0 <= m < n < |r| ==> r[m] < r[n]
  {
    if k == 0 then []
    else ShadersBelow(ts, i, k - 1) + (if Shades(ts, i, k - 1) then [k - 1] else [])
  }

  function Shaders(ts: seq<Tree>, i: nat): (r: seq<nat>)
    requires i < |ts|
    ensures forall j: nat :: j in r <==> j < |ts| && Shades(ts, i, j)
    ensures i !in r
  {
    ShadersBelow(ts, i, |ts|)
  }

  /** Twice the area of an equilateral triangle on the overlap depth, 0.433 * side^2 * 2. */
  function OverlapContribution(base: Tree, shader: Tree): (a: real)
    ensures a >= 0.0
  {
    var side := shader.radius + base.radius - Distance(base, shader) as real;
    0.433 * (side * side) * 2.0
  }

  /** The overlap added up over the shaders listed in `idx`, in order. */
  function OverlapOver(ts: seq<Tree>, i: nat, idx: seq<nat>): (a: real)
    requires i < |ts|
    requires forall m :: 0 <= m < |idx| ==> idx[m] < |ts|
    ensures a >= 0.0
  {
    if idx == [] then 0.0
    else OverlapOver(ts, i, idx[..|idx| - 1]) + OverlapContribution(ts[i], ts[idx[|idx| - 1]])
  }

  function TotalOverlap(ts: seq<Tree>, i: nat): (a: real)
    requires i < |ts|
    ensures a >= 0.0
  {
    OverlapOver(ts, i, Shaders(ts, i))
  }

  /** The `forEach` that accumulates `totalOverlapArea` for tree `i`. */
  method TotalOverlapArea(ts: seq<Tree>, i: nat) returns (total: real)
    requires i < |ts|
    ensures total == TotalOverlap(ts, i) && total >= 0.0
  {
    var shaders := Shaders(ts, i);
    total := 0.0;
    var k := 0;
    while k < |shaders|
      invariant 0 <= k <= |shaders|
      invariant total == OverlapOver(ts, i, shaders[..k])
    {
      assert shaders[..k + 1][..k] == shaders[..k];
      total := total + OverlapContribution(ts[i], ts[shaders[k]]);
      k := k + 1;
    }
    assert shaders[..k] == shaders;
  }

  /** `Math.PI * r * r` is positive for a positive radius, as `ValidEnv` asks of `discArea`. */
  lemma ExactDiscArea(r: real)
    requires r > 0.0
    ensures Pi * r * r > 0.0
  {
    ProductPositive(Pi, r);
    ProductPositive(Pi * r, r);
  }

  lemma QuotientInUnit(total: real, area: real)
    requires total >= 0.0 && area > 0.0
    ensures 0.0 <= Min(1.0, total / area) <= 1.0
  {
    assert total / area >= 0.0;
  }

  /**
   * `Math.min(1, totalOverlapArea / (Math.PI * r * r))`. A tree of radius 0 has area 0:
   * any overlap then divides to Infinity and caps at 1, no overlap divides to NaN (`None`).
   */
  function Fraction(total: real, radius: real, env: Env): (f: Option<real>)
    requires total >= 0.0 && ValidEnv(env)
    ensures f.None? <==> radius == 0.0 && total == 0.0
    ensures f.Some? ==> 0.0 <= f.value <= 1.0
    ensures radius == 0.0 && total > 0.0 ==> f == Some(1.0)
    ensures radius != 0.0 && total == 0.0 ==> f == Some(0.0)
  {
    var area := env.discArea(radius);
    if area == 0.0 then (if total > 0.0 then Some(1.0) else None)
    else
      QuotientInUnit(total, area);
      Some(Min(1.0, total / area))
  }

  /** The shade fraction of tree `i` among the trees `ts`. */
  function ShadeFraction(ts: seq<Tree>, i: nat, env: Env): (f: Option<real>)
    requires i < |ts| && ValidEnv(env)
    ensures f.Some? ==> 0.0 <= f.value <= 1.0
  {
    Fraction(TotalOverlap(ts, i), ts[i].radius, env)
  }

  // ---------------------------------------------------------------- health and mortality

  /**
   * The health update: a shade fraction above the species' tolerance costs
   * `(fraction - tolerance) / age^0.8`; otherwise health recovers by 0.3, capped at 1.
   * A NaN fraction compares false and so counts as tolerated.
   */
  function NewHealth(health: real, fraction: Option<real>, tolerance: real, age: nat, env: Env): (h: real)
    requires ValidEnv(env) && age >= 1
    ensures fraction.Some? && fraction.value > tolerance ==> h < health
    ensures !(fraction.Some? && fraction.value > tolerance) ==>
              && h <= 1.0
              && (health + 0.3 <= 1.0 ==> h == health + 0.3)
              && (health + 0.3 >= 1.0 ==> h == 1.0)
  {
    if fraction.Some? && fraction.value > tolerance then
      assert env.agePow(age) > 0.0;
      health - (fraction.value - tolerance) / env.agePow(age)
    else
      Min(1.0, health + 0.3)
  }

  /** The tree the health pass makes of `ts[i]`. */
  function HealthUpdate(catalog: seq<Species>, ts: seq<Tree>, i: nat, env: Env): (t: Tree)
    requires i < |ts| && ValidEnv(env) && ts[i].age >= 1
    requires FindSpecies(catalog, ts[i].speciesId).Some?
    ensures var s := FindSpecies(catalog, ts[i].speciesId).value;
            && t == ts[i].(health := t.health, isDead := t.isDead)
            && t.health == NewHealth(ts[i].health, ShadeFraction(ts, i, env), s.shadeTolerance, ts[i].age, env)
            && t.isDead == Some(t.health < 0.0 || (ts[i].age as int) > s.lifespan)
  {
    var s := FindSpecies(catalog, ts[i].speciesId).value;
    var h := NewHealth(ts[i].health, ShadeFraction(ts, i, env), s.shadeTolerance, ts[i].age, env);
    ts[i].(health := h, isDead := Some(h < 0.0 || (ts[i].age as int) > s.lifespan))
  }

  predicate AllAged(ts: seq<Tree>)
  {
    forall i :: 0 <= i < |ts| ==> ts[i].age >= 1
  }

  /** The health pass over the whole list, each tree shaded by the list as it was. */
  function HealthAll(catalog: seq<Species>, ts: seq<Tree>, env: Env): (r: seq<Tree>)
    requires KnownSpecies(catalog, ts) && AllAged(ts) && ValidEnv(env)
    ensures |r| == |ts|
    ensures forall i :: 0 <= i < |ts| ==> r[i] == HealthUpdate(catalog, ts, i, env)
  {
    seq(|ts|, i requires 0 <= i < |ts| => HealthUpdate(catalog, ts, i, env))
  }

  /** `tree.isDead` read as a condition: an absent flag is falsy. */
  predicate IsDead(t: Tree) { t.isDead == Some(true) }

  /** `trees.filter(tree => !tree.isDead)`. */
  function Living(ts: seq<Tree>): seq<Tree>
  {
    if ts == [] then []
    else (if IsDead(ts[0]) then [] else [ts[0]]) + Living(ts[1..])
  }

  /** `trees.filter(tree => tree.isDead)`. */
  function Dying(ts: seq<Tree>): seq<Tree>
  {
    if ts == [] then []
    else (if IsDead(ts[0]) then [ts[0]] else []) + Dying(ts[1..])
  }

  /** The living trees are exactly the members not flagged dead, the dying ones exactly those flagged. */
  lemma {:induction false} FilterMembers(ts: seq<Tree>)
    ensures forall t :: t in Living(ts) <==> t in ts && !IsDead(t)
    ensures forall t :: t in Dying(ts) <==> t in ts && IsDead(t)
  {
    if ts != [] {
      FilterMembers(ts[1..]);
      assert ts == [ts[0]] + ts[1..];
    }
  }

  /** The two filters split the list: every tree lands in exactly one of them. */
  lemma {:induction false} PartitionCount(ts: seq<Tree>)
    ensures |Living(ts)| + |Dying(ts)| == |ts|
    ensures multiset(Living(ts)) + multiset(Dying(ts)) == multiset(ts)
  {
    if ts != [] {
      PartitionCount(ts[1..]);
      assert ts == [ts[0]] + ts[1..];
    }
  }

  /** A tree of the health pass is dead exactly when its health is negative or it is past its lifespan. */
  lemma DeathRule(catalog: seq<Species>, ts: seq<Tree>, env: Env, i: nat)
    requires KnownSpecies(catalog, ts) && AllAged(ts) && ValidEnv(env) && i < |ts|
    ensures var t := HealthAll(catalog, ts, env)[i];
            var s := FindSpecies(catalog, ts[i].speciesId).value;
            IsDead(t) <==> t.health < 0.0 || (ts[i].age as int) > s.lifespan
  {
  }

  // ---------------------------------------------------------------- seeding

  /** A seedling copies its parent except for age 0, radius 0 and a shifted position. */
  predicate SeedlingOf(s: Tree, parent: Tree)
  {
    s == parent.(age := 0, radius := 0.0, x := s.x, y := s.y)
  }

  /**
   * The seedling a parent drops for the draw pair `d`: each coordinate moves by
   * `(u - 0.5) * 4 * radius`, so by at most twice the parent's radius.
   */
  function Seedling(parent: Tree, d: (real, real)): (s: Tree)
    ensures SeedlingOf(s, parent)
    ensures 0.0 <= d.0 <= 1.0 ==> Abs(s.x - parent.x) <= 2.0 * Abs(parent.radius)
    ensures 0.0 <= d.1 <= 1.0 ==> Abs(s.y - parent.y) <= 2.0 * Abs(parent.radius)
  {
    OffsetBound(d.0, parent.radius);
    OffsetBound(d.1, parent.radius);
    parent.(age := 0, radius := 0.0,
            x := parent.x + (d.0 - 0.5) * SeedDistanceMultiplier * parent.radius,
            y := parent.y + (d.1 - 0.5) * SeedDistanceMultiplier * parent.radius)
  }

  lemma OffsetBound(u: real, r: real)
    ensures 0.0 <= u <= 1.0 ==> Abs((u - 0.5) * SeedDistanceMultiplier * r) <= 2.0 * Abs(r)
  {
    if 0.0 <= u <= 1.0 {
      var c := (u - 0.5) * SeedDistanceMultiplier;
      assert -2.0 <= c <= 2.0;
      if r >= 0.0 {
        assert -2.0 * r <= c * r <= 2.0 * r;
      } else {
        assert 2.0 * r <= c * r <= -2.0 * r;
      }
    }
  }

  /**
   * The draws one parent consumes: `count` is the `Math.random()` of the seedling count,
   * and `offsets(k)` the pair of draws that places seedling `k`.
   */
  datatype SeedDraw = SeedDraw(count: real, offsets: nat -> (real, real))

  /**
   * `times(Math.round(u * maxSeedlings * sqrtAge / 3), ...)`: the rounded scaled draw, and no
   * seedling when that rounds below 1 (lodash `times` runs nothing then).
   */
  function SeedlingCount(sqrtAge: real, u: real): nat
  {
    var r := Round(u * MaxSeedlings * sqrtAge / 3.0);
    if r < 1 then 0 else r
  }

  /** The count is the nearest integer to the scaled draw, and 0 when that is below 1/2. */
  lemma SeedlingCountBracket(sqrtAge: real, u: real)
    ensures var n := SeedlingCount(sqrtAge, u);
            && (n == 0 <==> u * MaxSeedlings * sqrtAge / 3.0 < 0.5)
            && (n > 0 ==> n as real - 0.5 <= u * MaxSeedlings * sqrtAge / 3.0 < n as real + 0.5)
  {
  }

  /** A unit draw drops at most `round(2 * sqrt(age) / 3)` seedlings. */
  lemma SeedlingCountBound(sqrtAge: real, age: nat, u: real)
    requires sqrtAge >= 0.0 && sqrtAge * sqrtAge == age as real && 0.0 <= u < 1.0
    ensures SeedlingCount(sqrtAge, u) <= Round(MaxSeedlings * sqrtAge / 3.0)
    ensures (SeedlingCount(sqrtAge, u) as real) < MaxSeedlings * sqrtAge / 3.0 + 0.5
  {
    SeedlingCountBracket(sqrtAge, u);
    var top := MaxSeedlings * sqrtAge / 3.0;
    assert u * MaxSeedlings * sqrtAge / 3.0 == u * top;
    assert u * top <= top by {
      assert top - u * top == (1.0 - u) * top;
      assert (1.0 - u) * top >= 0.0;
    }
    RoundMonotone(u * top, top);
  }

  /** A ten-year-old parent, the youngest that seeds, drops at most two seedlings. */
  lemma YoungestParentDropsAtMostTwo(sqrtAge: real, u: real)
    requires sqrtAge >= 0.0 && sqrtAge * sqrtAge == 10.0 && 0.0 <= u < 1.0
    ensures SeedlingCount(sqrtAge, u) <= 2
  {
    if sqrtAge >= 3.2 {
      assert false;
    }
    SeedlingCountBound(sqrtAge, 10, u);
    assert MaxSeedlings * sqrtAge / 3.0 < 2.5;
  }

  /**
   * The seedlings of one parent: `SeedlingCount` of them, seedling `k` placed by the offset
   * draws `k`, and none below the reproductive age.
   */
  function SeedlingsOf(env: Env, parent: Tree, d: SeedDraw): (r: seq<Tree>)
    ensures parent.age < MinReproductiveAge ==> r == []
    ensures parent.age >= MinReproductiveAge ==> |r| == SeedlingCount(env.ageSqrt(parent.age), d.count)
    ensures forall k :: 0 <= k < |r| ==> r[k] == Seedling(parent, d.offsets(k))
  {
    if parent.age >= MinReproductiveAge then
      var n := SeedlingCount(env.ageSqrt(parent.age), d.count);
      seq(n, k requires 0 <= k < n => Seedling(parent, d.offsets(k)))
    else []
  }

  /**
   * With `ageSqrt` the square root of the parent's age and a unit count draw, a parent drops
   * at most `round(2 * sqrt(age) / 3)` seedlings.
   */
  lemma SeedlingsOfBound(env: Env, parent: Tree, d: SeedDraw)
    requires env.ageSqrt(parent.age) >= 0.0 && env.ageSqrt(parent.age) * env.ageSqrt(parent.age) == parent.age as real
    requires 0.0 <= d.count < 1.0
    ensures |SeedlingsOf(env, parent, d)| <= Round(MaxSeedlings * env.ageSqrt(parent.age) / 3.0)
  {
    SeedlingCountBound(env.ageSqrt(parent.age), parent.age, d.count);
    if parent.age < MinReproductiveAge {
      assert Round(MaxSeedlings * env.ageSqrt(parent.age) / 3.0) >= 0;
    }
  }

  /** The seedlings of the first `k` trees, in parent order; `draws(i)` feeds parent `i`. */
  function SeedlingsUpTo(env: Env, ts: seq<Tree>, draws: nat -> SeedDraw, k: nat): seq<Tree>
    requires k <= |ts|
  {
    if k == 0 then []
    else SeedlingsUpTo(env, ts, draws, k - 1) + SeedlingsOf(env, ts[k - 1], draws(k - 1))
  }

  /** `s` is the seedling of one of the first `k` trees, which is of reproductive age. */
  predicate HasParent(ts: seq<Tree>, k: nat, s: Tree)
  {
    exists j :: 0 <= j < k && j < |ts| && ts[j].age >= MinReproductiveAge && SeedlingOf(s, ts[j])
  }

  /** Each seedling of the first `k` trees descends from one of them of reproductive age. */
  lemma {:induction false} SeedlingsHaveParents(env: Env, ts: seq<Tree>, draws: nat -> SeedDraw, k: nat)
    requires k <= |ts|
    ensures forall m :: 0 <= m < |SeedlingsUpTo(env, ts, draws, k)| ==> HasParent(ts, k, SeedlingsUpTo(env, ts, draws, k)[m])
  {
    if k > 0 {
      SeedlingsHaveParents(env, ts, draws, k - 1);
      var prefix := SeedlingsUpTo(env, ts, draws, k - 1);
      var own := SeedlingsOf(env, ts[k - 1], draws(k - 1));
      var r := SeedlingsUpTo(env, ts, draws, k);
      assert r == prefix + own;
      forall m | 0 <= m < |r|
        ensures HasParent(ts, k, r[m])
      {
        if m < |prefix| {
          assert r[m] == prefix[m];
          assert HasParent(ts, k - 1, prefix[m]);
        } else {
          assert r[m] == own[m - |prefix|];
          assert SeedlingOf(r[m], ts[k - 1]);
        }
      }
    }
  }

  function AllSeedlings(env: Env, ts: seq<Tree>, draws: nat -> SeedDraw): seq<Tree>
  {
    SeedlingsUpTo(env, ts, draws, |ts|)
  }

  /** Every seedling has age 0 and radius 0 and descends from a parent of reproductive age. */
  lemma SeedlingsAreYoung(env: Env, ts: seq<Tree>, draws: nat -> SeedDraw, s: Tree)
    requires s in AllSeedlings(env, ts, draws)
    ensures s.age == 0 && s.radius == 0.0
    ensures exists j :: 0 <= j < |ts| && ts[j].age >= MinReproductiveAge && SeedlingOf(s, ts[j])
  {
    SeedlingsHaveParents(env, ts, draws, |ts|);
    var m :| 0 <= m < |AllSeedlings(env, ts, draws)| && AllSeedlings(env, ts, draws)[m] == s;
    assert HasParent(ts, |ts|, s);
  }

  /** `ageSqrt` is the exact square root on ages. */
  ghost predicate ExactAgeSqrt(env: Env)
  {
    forall a: nat :: env.ageSqrt(a) >= 0.0 && env.ageSqrt(a) * env.ageSqrt(a) == a as real
  }

  /** The count draws of the first `n` parents lie in [0, 1), as `Math.random()` does. */
  predicate UnitCounts(draws: nat -> SeedDraw, n: nat)
  {
    forall i :: 0 <= i < n ==> 0.0 <= draws(i).count < 1.0
  }

  /** The most seedlings one tree can drop: `round(2 * sqrt(age) / 3)` from age 10, else none. */
  function ParentCap(env: Env, t: Tree): int
  {
    if t.age >= MinReproductiveAge then Round(MaxSeedlings * env.ageSqrt(t.age) / 3.0) else 0
  }

  /** The most seedlings the first `k` trees can drop together. */
  function SeedlingCapUpTo(env: Env, ts: seq<Tree>, k: nat): int
    requires k <= |ts|
  {
    if k == 0 then 0 else SeedlingCapUpTo(env, ts, k - 1) + ParentCap(env, ts[k - 1])
  }

  function SeedlingCap(env: Env, ts: seq<Tree>): int
  {
    SeedlingCapUpTo(env, ts, |ts|)
  }

  /** With the exact square root and a count draw in [0, 1), a tree drops at most its cap. */
  lemma ParentCapBound(env: Env, parent: Tree, d: SeedDraw)
    requires ExactAgeSqrt(env) && 0.0 <= d.count < 1.0
    ensures |SeedlingsOf(env, parent, d)| <= ParentCap(env, parent)
  {
    SeedlingsOfBound(env, parent, d);
  }

  /** Per-parent caps add up over the seeding pass. */
  lemma {:induction false} SeedlingsUpToBound(env: Env, ts: seq<Tree>, draws: nat -> SeedDraw, k: nat)
    requires k <= |ts|
    requires forall i :: 0 <= i < k ==> |SeedlingsOf(env, ts[i], draws(i))| <= ParentCap(env, ts[i])
    ensures |SeedlingsUpTo(env, ts, draws, k)| <= SeedlingCapUpTo(env, ts, k)
  {
    if k > 0 {
      SeedlingsUpToBound(env, ts, draws, k - 1);
      assert |SeedlingsOf(env, ts[k - 1], draws(k - 1))| <= ParentCap(env, ts[k - 1]);
    }
  }

  /** No seeding pass produces more seedlings than the cap of its parents. */
  lemma AllSeedlingsBound(env: Env, ts: seq<Tree>, draws: nat -> SeedDraw)
    requires ExactAgeSqrt(env) && UnitCounts(draws, |ts|)
    ensures |AllSeedlings(env, ts, draws)| <= SeedlingCap(env, ts)
  {
    forall i | 0 <= i < |ts|
      ensures |SeedlingsOf(env, ts[i], draws(i))| <= ParentCap(env, ts[i])
    {
      ParentCapBound(env, ts[i], draws(i));
    }
    SeedlingsUpToBound(env, ts, draws, |ts|);
  }

  /** The `times` loop of one parent of reproductive age: push its seedlings one by one. */
  method PushSeedlings(env: Env, parent: Tree, d: SeedDraw, seedlings: seq<Tree>) returns (r: seq<Tree>)
    requires parent.age >= MinReproductiveAge
    ensures r == seedlings + SeedlingsOf(env, parent, d)
  {
    ghost var own := SeedlingsOf(env, parent, d);
    var n := SeedlingCount(env.ageSqrt(parent.age), d.count);
    assert |own| == n;
    r := seedlings;
    var k := 0;
    while k < n
      invariant 0 <= k <= n
      invariant r == seedlings + own[..k]
    {
      assert own[..k + 1] == own[..k] + [Seedling(parent, d.offsets(k))];
      r := r + [Seedling(parent, d.offsets(k))];
      k := k + 1;
    }
    assert own[..k] == own;
  }

  /** The loop that pushes into `seedlings`, one parent at a time. */
  method CollectSeedlings(env: Env, ts: seq<Tree>, draws: nat -> SeedDraw) returns (seedlings: seq<Tree>)
    ensures seedlings == AllSeedlings(env, ts, draws)
  {
    seedlings := [];
    var i := 0;
    while i < |ts|
      invariant 0 <= i <= |ts|
      invariant seedlings == SeedlingsUpTo(env, ts, draws, i)
    {
      ghost var own := SeedlingsOf(env, ts[i], draws(i));
      assert SeedlingsUpTo(env, ts, draws, i + 1) == seedlings + own;
      if ts[i].age >= MinReproductiveAge {
        seedlings := PushSeedlings(env, ts[i], draws(i), seedlings);
      } else {
        assert own == [];
        assert seedlings + own == seedlings;
      }
      i := i + 1;
    }
  }

  // ---------------------------------------------------------------- pruning

  /** Inside the plot: `!(x < 0 || x > width || y < 0 || y > height)`. */
  predicate InBounds(t: Tree, width: real, height: real)
  {
    !(t.x < 0.0 || t.x > width || t.y < 0.0 || t.y > height)
  }

  /** The trees inside the plot, in their original order. */
  function Prune(ts: seq<Tree>, width: real, height: real): (r: seq<Tree>)
    ensures |r| <= |ts|
  {
    if ts == [] then []
    else (if InBounds(ts[0], width, height) then [ts[0]] else []) + Prune(ts[1..], width, height)
  }

  /** The survivors are exactly the members inside the plot. */
  lemma {:induction false} PruneMembers(ts: seq<Tree>, width: real, height: real)
    ensures forall t :: t in Prune(ts, width, height) <==> t in ts && InBounds(t, width, height)
  {
    if ts != [] {
      PruneMembers(ts[1..], width, height);
      assert ts == [ts[0]] + ts[1..];
    }
  }

  /** Pruning a concatenation prunes each part: the order of the survivors is kept. */
  lemma {:induction false} PruneAppend(a: seq<Tree>, b: seq<Tree>, width: real, height: real)
    ensures Prune(a + b, width, height) == Prune(a, width, height) + Prune(b, width, height)
  {
    if a == [] {
      assert a + b == b;
    } else {
      var head := if InBounds(a[0], width, height) then [a[0]] else [];
      var ab := a + b;
      assert ab[0] == a[0];
      assert ab[1..] == a[1..] + b;
      assert Prune(ab, width, height) == head + Prune(a[1..] + b, width, height);
      assert Prune(a, width, height) == head + Prune(a[1..], width, height);
      PruneAppend(a[1..], b, width, height);
    }
  }

  /** Pruning twice is pruning once. */
  lemma {:induction false} PruneIdempotent(ts: seq<Tree>, width: real, height: real)
    ensures Prune(Prune(ts, width, height), width, height) == Prune(ts, width, height)
  {
    if ts != [] {
      var head := if InBounds(ts[0], width, height) then [ts[0]] else [];
      PruneAppend(head, Prune(ts[1..], width, height), width, height);
      PruneIdempotent(ts[1..], width, height);
      assert Prune(head, width, height) == head by {
        if head != [] {
          assert head[1..] == [];
        }
      }
    }
  }

  /** A list already inside the plot is left as it is. */
  lemma {:induction false} PruneKeepsInside(ts: seq<Tree>, width: real, height: real)
    requires forall i :: 0 <= i < |ts| ==> InBounds(ts[i], width, height)
    ensures Prune(ts, width, height) == ts
  {
    if ts != [] {
      PruneKeepsInside(ts[1..], width, height);
    }
  }

  /** The health pass split into the living and the newly dead trees, both of known species. */
  method SplitHealth(catalog: seq<Species>, ts: seq<Tree>, env: Env) returns (living: seq<Tree>, dying: seq<Tree>)
    requires KnownSpecies(catalog, ts) && AllAged(ts) && ValidEnv(env)
    ensures living == Living(HealthAll(catalog, ts, env)) && dying == Dying(HealthAll(catalog, ts, env))
    ensures KnownSpecies(catalog, living) && |living| + |dying| == |ts|
  {
    var h := HealthAll(catalog, ts, env);
    HealthKeepsKnown(catalog, ts, env);
    PartitionCount(h);
    living, dying := Living(h), Dying(h);
  }

  /** The species survive the health pass: the living and the newly dead trees name known species only. */
  lemma HealthKeepsKnown(catalog: seq<Species>, ts: seq<Tree>, env: Env)
    requires KnownSpecies(catalog, ts) && AllAged(ts) && ValidEnv(env)
    ensures KnownSpecies(catalog, Living(HealthAll(catalog, ts, env)))
    ensures KnownSpecies(catalog, Dying(HealthAll(catalog, ts, env)))
  {
    var h := HealthAll(catalog, ts, env);
    assert KnownSpecies(catalog, h) by {
      forall i | 0 <= i < |h| ensures FindSpecies(catalog, h[i].speciesId).Some? {
        assert h[i].speciesId == ts[i].speciesId;
      }
    }
    FilterMembers(h);
    KnownSubset(catalog, Living(h), h);
    KnownSubset(catalog, Dying(h), h);
  }

  /** Seeding and pruning keep the species known: every seedling is of its parent's species. */
  lemma SeedingKeepsKnown(catalog: seq<Species>, env: Env, ts: seq<Tree>, draws: nat -> SeedDraw,
                          width: real, height: real)
    requires KnownSpecies(catalog, ts)
    ensures KnownSpecies(catalog, Prune(ts + AllSeedlings(env, ts, draws), width, height))
  {
    var all := ts + AllSeedlings(env, ts, draws);
    forall i | 0 <= i < |all| ensures FindSpecies(catalog, all[i].speciesId).Some? {
      if i >= |ts| {
        SeedlingsAreYoung(env, ts, draws, all[i]);
      }
    }
    PruneMembers(all, width, height);
    KnownSubset(catalog, Prune(all, width, height), all);
  }

  /**
   * One seeding and pruning pass over `ts`: at most the parents plus their cap survive,
   * every survivor is inside the plot, and each is a parent or a fresh seedling of one of
   * reproductive age.
   */
  lemma SeedingPassFacts(env: Env, ts: seq<Tree>, draws: nat -> SeedDraw, width: real, height: real)
    requires ExactAgeSqrt(env) && UnitCounts(draws, |ts|)
    ensures var r := Prune(ts + AllSeedlings(env, ts, draws), width, height);
            && |r| <= |ts| + SeedlingCap(env, ts)
            && forall t :: t in r ==> InBounds(t, width, height) && (t in ts || FreshSeedlingOf(t, ts))
  {
    var all := ts + AllSeedlings(env, ts, draws);
    AllSeedlingsBound(env, ts, draws);
    PruneMembers(all, width, height);
    forall t | t in Prune(all, width, height)
      ensures t in ts || FreshSeedlingOf(t, ts)
    {
      if t !in ts {
        SeedlingsAreYoung(env, ts, draws, t);
      }
    }
  }

  /** `s` is a seedling of age 0 and radius 0 whose parent in `ts` is of reproductive age. */
  ghost predicate FreshSeedlingOf(s: Tree, ts: seq<Tree>)
  {
    s.age == 0 && s.radius == 0.0
    && exists j :: 0 <= j < |ts| && ts[j].age >= MinReproductiveAge && SeedlingOf(s, ts[j])
  }

  // ---------------------------------------------------------------- carbon

  /** The carbon of a list of trees: 100 per unit of radius. */
  function Carbon(ts: seq<Tree>): real
  {
    if ts == [] then 0.0 else Carbon(ts[..|ts| - 1]) + ts[|ts| - 1].radius * 100.0
  }

  lemma {:induction false} CarbonAppend(a: seq<Tree>, b: seq<Tree>)
    ensures Carbon(a + b) == Carbon(a) + Carbon(b)
    decreases |b|
  {
    if b == [] {
      assert a + b == a;
    } else {
      assert (a + b)[..|a + b| - 1] == a + b[..|b| - 1];
      CarbonAppend(a, b[..|b| - 1]);
    }
  }

  lemma {:induction false} CarbonNonNegative(ts: seq<Tree>)
    requires forall i :: 0 <= i < |ts| ==> ts[i].radius >= 0.0
    ensures Carbon(ts) >= 0.0
  {
    if ts != [] {
      CarbonNonNegative(ts[..|ts| - 1]);
    }
  }

  /** `calculateCarbon`: the two `forEach` loops adding `radius * 100` into `carbonSum`. */
  method CarbonSum(trees: seq<Tree>, deadTrees: seq<Tree>) returns (carbonSum: real)
    ensures carbonSum == Carbon(trees + deadTrees)
  {
    carbonSum := 0.0;
    var i := 0;
    while i < |trees|
      invariant 0 <= i <= |trees|
      invariant carbonSum == Carbon(trees[..i])
    {
      assert trees[..i + 1][..i] == trees[..i];
      carbonSum := carbonSum + trees[i].radius * 100.0;
      i := i + 1;
    }
    assert trees[..i] == trees;
    var j := 0;
    while j < |deadTrees|
      invariant 0 <= j <= |deadTrees|
      invariant carbonSum == Carbon(trees) + Carbon(deadTrees[..j])
    {
      assert deadTrees[..j + 1][..j] == deadTrees[..j];
      carbonSum := carbonSum + deadTrees[j].radius * 100.0;
      j := j + 1;
    }
    assert deadTrees[..j] == deadTrees;
    CarbonAppend(trees, deadTrees);
  }

  // ---------------------------------------------------------------- biodiversity

  const BiodiversityExponent: nat := 500

  /** The keys of `countBy(trees, 'speciesId')`: each species id once, by first occurrence. */
  function DistinctIds(ts: seq<Tree>): seq<string>
  {
    if ts == [] then []
    else
      var init := DistinctIds(ts[..|ts| - 1]);
      var id := ts[|ts| - 1].speciesId;
      if id in init then init else init + [id]
  }

  /** The keys are distinct, each is the species of some tree, and every tree's species is among them. */
  lemma {:induction false} DistinctIdsAreKeys(ts: seq<Tree>)
    ensures var ids := DistinctIds(ts);
      && (forall a, b :: 0 <= a < b < |ids| ==> ids[a] != ids[b])
      && (forall k :: 0 <= k < |ids| ==> exists i :: 0 <= i < |ts| && ts[i].speciesId == ids[k])
      && (forall i :: 0 <= i < |ts| ==> ts[i].speciesId in ids)
  {
    if ts != [] {
      var init := ts[..|ts| - 1];
      DistinctIdsAreKeys(init);
      assert forall i :: 0 <= i < |ts| - 1 ==> init[i] == ts[i];
    }
  }

  /** The value of `countBy(trees, 'speciesId')` at `id`. */
  function CountOf(ts: seq<Tree>, id: string): (c: nat)
    ensures c <= |ts|
  {
    if ts == [] then 0
    else CountOf(ts[..|ts| - 1], id) + (if ts[|ts| - 1].speciesId == id then 1 else 0)
  }

  lemma {:induction false} CountPositive(ts: seq<Tree>, id: string, i: nat)
    requires i < |ts| && ts[i].speciesId == id
    ensures CountOf(ts, id) >= 1
  {
    if i < |ts| - 1 {
      CountPositive(ts[..|ts| - 1], id, i);
    }
  }

  /** Two different species together account for at most all the trees. */
  lemma {:induction false} CountPair(ts: seq<Tree>, a: string, b: string)
    requires a != b
    ensures CountOf(ts, a) + CountOf(ts, b) <= |ts|
  {
    if ts != [] {
      CountPair(ts[..|ts| - 1], a, b);
    }
  }

  lemma {:induction false} CountAll(ts: seq<Tree>, id: string)
    requires forall i :: 0 <= i < |ts| ==> ts[i].speciesId == id
    ensures CountOf(ts, id) == |ts|
  {
    if ts != [] {
      CountAll(ts[..|ts| - 1], id);
    }
  }

  /** `reduce((acc, o) => acc * o, 1)`. */
  function Product(xs: seq<real>): real
  {
    if xs == [] then 1.0 else Product(xs[..|xs| - 1]) * xs[|xs| - 1]
  }

  lemma ScaleDown(p: real, x: real)
    requires p > 0.0 && 0.0 < x <= 1.0
    ensures 0.0 < p * x <= p
    ensures x < 1.0 ==> p * x < p
  {
    ProductPositive(p, x);
    if x < 1.0 {
      ProductPositive(p, 1.0 - x);
    } else {
      assert p * x == p;
    }
  }

  /** A product of factors in (0, 1] lies in (0, 1], and is 1 exactly when every factor is. */
  lemma {:induction false} ProductInUnit(xs: seq<real>)
    requires forall k :: 0 <= k < |xs| ==> 0.0 < xs[k] <= 1.0
    ensures 0.0 < Product(xs) <= 1.0
    ensures Product(xs) == 1.0 <==> forall k :: 0 <= k < |xs| ==> xs[k] == 1.0
  {
    if xs != [] {
      var init := xs[..|xs| - 1];
      var x := xs[|xs| - 1];
      ProductInUnit(init);
      ScaleDown(Product(init), x);
      if Product(xs) == 1.0 {
        assert x == 1.0 && Product(init) == 1.0;
        forall k | 0 <= k < |xs|
          ensures xs[k] == 1.0
        {
          if k < |xs| - 1 {
            assert init[k] == xs[k];
          }
        }
      }
      if forall k :: 0 <= k < |xs| ==> xs[k] == 1.0 {
        assert forall k :: 0 <= k < |init| ==> init[k] == xs[k];
      }
    }
  }

  lemma FractionBounds(c: nat, n: nat)
    requires 1 <= c <= n
    ensures 0.0 < (c as real) / (n as real) <= 1.0
    ensures (c as real) / (n as real) == 1.0 <==> c == n
  {
    var a := c as real;
    var b := n as real;
    var q := a / b;
    assert q * b == a;
    DivideMonotone(a, b, b);
    assert b / b == 1.0;
    if q <= 0.0 {
      ProductPositive(-q, b);
      assert false;
    }
    if q == 1.0 {
      assert a == b;
    }
  }

  /** The per-species fractions `count / numTrees`. */
  function Fractions(ts: seq<Tree>): (fs: seq<real>)
    ensures |fs| == |DistinctIds(ts)|
  {
    var ids := DistinctIds(ts);
    if |ts| == 0 then []
    else seq(|ids|, k requires 0 <= k < |ids| => (CountOf(ts, ids[k]) as real) / (|ts| as real))
  }

  /** `Math.pow(1 - rawBiodiversity, 500)`, the product of the fractions being `rawBiodiversity`. */
  function Biodiversity(ts: seq<Tree>): real
  {
    Pow(1.0 - Product(Fractions(ts)), BiodiversityExponent)
  }

  /**
   * The score lies in [0, 1); it is 0 exactly when the trees belong to at most one species
   * (in particular when there are none), and positive as soon as two species are present.
   */
  lemma BiodiversityRange(ts: seq<Tree>)
    ensures 0.0 <= Biodiversity(ts) < 1.0
    ensures Biodiversity(ts) == 0.0 <==> |DistinctIds(ts)| <= 1
  {
    var ids := DistinctIds(ts);
    var fs := Fractions(ts);
    DistinctIdsAreKeys(ts);
    forall k | 0 <= k < |fs|
      ensures 0.0 < fs[k] <= 1.0
      ensures fs[k] == 1.0 <==> CountOf(ts, ids[k]) == |ts|
    {
      var i :| 0 <= i < |ts| && ts[i].speciesId == ids[k];
      CountPositive(ts, ids[k], i);
      FractionBounds(CountOf(ts, ids[k]), |ts|);
    }
    ProductInUnit(fs);
    var x := 1.0 - Product(fs);
    PowInUnit(x, BiodiversityExponent);
    PowZeroIff(x, BiodiversityExponent);
    if |ids| >= 2 {
      CountPair(ts, ids[0], ids[1]);
      var i :| 0 <= i < |ts| && ts[i].speciesId == ids[1];
      CountPositive(ts, ids[1], i);
      assert fs[0] != 1.0;
    } else if |ids| == 1 {
      assert forall i :: 0 <= i < |ts| ==> ts[i].speciesId == ids[0];
      CountAll(ts, ids[0]);
    }
  }

  // ---------------------------------------------------------------- neighbours and declustering

  /** Tree `j` may be a neighbour of tree `i`: another tree, and not the one already taken. */
  predicate Candidate(ts: seq<Tree>, i: nat, skip: Option<nat>, j: nat)
  {
    j < |ts| && j != i && skip != Some(j)
  }

  function Dist(ts: seq<Tree>, i: nat, j: nat): nat
    requires i < |ts| && j < |ts|
  {
    Distance(ts[i], ts[j])
  }

  /**
   * The first element of a stable ascending sort by distance among the candidates below
   * `k`: a nearest candidate, and the earliest one among equally near candidates.
   */
  function ClosestBelow(ts: seq<Tree>, i: nat, skip: Option<nat>, k: nat): (c: Option<nat>)
    requires i < |ts| && k <= |ts|
    ensures c.None? <==> !exists j :: 0 <= j < k && Candidate(ts, i, skip, j)
    ensures c.Some? ==>
              && c.value < k && Candidate(ts, i, skip, c.value)
              && (forall j :: 0 <= j < k && Candidate(ts, i, skip, j) ==> Dist(ts, i, c.value) <= Dist(ts, i, j))
              && (forall j :: 0 <= j < c.value && Candidate(ts, i, skip, j) ==> Dist(ts, i, c.value) < Dist(ts, i, j))
  {
    if k == 0 then None
    else
      var prev := ClosestBelow(ts, i, skip, k - 1);
      if !Candidate(ts, i, skip, k - 1) then prev
      else if prev.Some? && Dist(ts, i, prev.value) <= Dist(ts, i, k - 1) then prev
      else Some(k - 1)
  }

  /** `take(sortBy(..., 'distance'), 2)` over the other trees: the nearest two, stably. */
  function TakeTwo(ts: seq<Tree>, i: nat): (r: seq<nat>)
    requires i < |ts|
    ensures |r| <= 2
    ensures |r| >= 1 <==> ClosestBelow(ts, i, None, |ts|).Some?
    ensures |r| >= 1 ==> r[0] == ClosestBelow(ts, i, None, |ts|).value
    ensures |r| >= 1 ==> (|r| == 2 <==> ClosestBelow(ts, i, Some(r[0]), |ts|).Some?)
    ensures |r| == 2 ==> r[1] == ClosestBelow(ts, i, Some(r[0]), |ts|).value
  {
    match ClosestBelow(ts, i, None, |ts|)
    case None => []
    case Some(a) =>
      match ClosestBelow(ts, i, Some(a), |ts|)
      case None => [a]
      case Some(b) => [a, b]
  }

  /** Both trees taken are other trees of the plot. */
  lemma TakeTwoCandidates(ts: seq<Tree>, i: nat)
    requires i < |ts|
    ensures forall m :: 0 <= m < |TakeTwo(ts, i)| ==> Candidate(ts, i, None, TakeTwo(ts, i)[m])
  {
    var taken := TakeTwo(ts, i);
    if |taken| == 2 {
      assert Candidate(ts, i, Some(taken[0]), taken[1]);
    }
  }

  /**
   * `getNearestTreesForTree`: the first two of the other trees stably sorted by distance,
   * keeping those nearer than 50. The base tree itself maps to `false`, sorts last and
   * fails the distance filter, so it never appears.
   */
  function NearestTrees(ts: seq<Tree>, i: nat): (r: seq<nat>)
    requires i < |ts|
    ensures |r| <= 2
    ensures forall m :: 0 <= m < |r| ==> Candidate(ts, i, None, r[m]) && (Dist(ts, i, r[m]) as real) < NeighbourRange
  {
    var taken := TakeTwo(ts, i);
    TakeTwoCandidates(ts, i);
    if |taken| == 0 || (Dist(ts, i, taken[0]) as real) >= NeighbourRange then []
    else if |taken| == 2 && (Dist(ts, i, taken[1]) as real) < NeighbourRange then taken
    else [taken[0]]
  }

  /**
   * The neighbours are the nearest other trees: the first is at least as near as every
   * other tree, the second at least as near as every tree but the first, and a tree
   * nearer than 50 guarantees at least one neighbour.
   */
  lemma NearestAreNearest(ts: seq<Tree>, i: nat)
    requires i < |ts|
    ensures var r := NearestTrees(ts, i);
            && (|r| == 2 ==> r[0] != r[1])
            && (|r| >= 1 ==> forall j :: 0 <= j < |ts| && j != i ==> Dist(ts, i, r[0]) <= Dist(ts, i, j))
            && (|r| == 2 ==> forall j :: 0 <= j < |ts| && j != i && j != r[0] ==> Dist(ts, i, r[1]) <= Dist(ts, i, j))
            && ((exists j :: 0 <= j < |ts| && j != i && (Dist(ts, i, j) as real) < NeighbourRange) ==> |r| >= 1)
  {
    var r := NearestTrees(ts, i);
    var taken := TakeTwo(ts, i);
    if exists j :: 0 <= j < |ts| && j != i && (Dist(ts, i, j) as real) < NeighbourRange {
      var j :| 0 <= j < |ts| && j != i && (Dist(ts, i, j) as real) < NeighbourRange;
      assert Candidate(ts, i, None, j);
      assert |taken| >= 1;
      assert Dist(ts, i, taken[0]) <= Dist(ts, i, j);
    }
    if |r| >= 1 {
      assert r[0] == taken[0];
      forall j | 0 <= j < |ts| && j != i
        ensures Dist(ts, i, r[0]) <= Dist(ts, i, j)
      {
        assert Candidate(ts, i, None, j);
      }
    }
    if |r| == 2 {
      forall j | 0 <= j < |ts| && j != i && j != r[0]
        ensures Dist(ts, i, r[1]) <= Dist(ts, i, j)
      {
        assert Candidate(ts, i, Some(r[0]), j);
      }
    }
  }

  /** How hard tree `base` is pushed away from `near`. */
  datatype Repulsion =
    | /** worker: the overlap at maturity times the scenario's declustering strength (NaN without a scenario) */
      MatureOverlap(strength: Option<real>)
    | /** store: the constant 1 */
      Constant(value: real)

  /** `getMatureOverlapBetweenTwoTrees`: both species' maximum radii minus the centre distance. */
  function MatureOverlapOf(catalog: seq<Species>, t1: Tree, t2: Tree): real
    requires FindSpecies(catalog, t1.speciesId).Some? && FindSpecies(catalog, t2.speciesId).Some?
  {
    FindSpecies(catalog, t1.speciesId).value.maxRadius + FindSpecies(catalog, t2.speciesId).value.maxRadius
      - Distance(t1, t2) as real
  }

  predicate KnownPair(catalog: seq<Species>, a: Tree, b: Tree)
  {
    FindSpecies(catalog, a.speciesId).Some? && FindSpecies(catalog, b.speciesId).Some?
  }

  /** The repulsion as a number, or `None` when it is NaN. */
  function RepulsionOf(catalog: seq<Species>, mode: Repulsion, near: Tree, base: Tree): Option<real>
    requires mode.MatureOverlap? ==> KnownPair(catalog, near, base)
  {
    match mode
    case Constant(v) => Some(v)
    case MatureOverlap(strength) =>
      if strength.None? then None else Some(MatureOverlapOf(catalog, near, base) * strength.value)
  }

  /** Two trees agree on everything but their position. */
  predicate SameButPosition(a: Tree, b: Tree)
  {
    a == b.(x := a.x, y := a.y)
  }

  /** `a` is `b` with trees moved but otherwise unchanged. */
  predicate MovedOnly(a: seq<Tree>, b: seq<Tree>)
  {
    |a| == |b| && forall k :: 0 <= k < |a| ==> SameButPosition(a[k], b[k])
  }

  lemma MovedOnlyTrans(a: seq<Tree>, b: seq<Tree>, c: seq<Tree>)
    requires MovedOnly(a, b) && MovedOnly(b, c)
    ensures MovedOnly(a, c)
  {
    forall k | 0 <= k < |a| ensures SameButPosition(a[k], c[k]) {
      assert SameButPosition(a[k], b[k]) && SameButPosition(b[k], c[k]);
    }
  }

  /**
   * One move of the declustering pass: tree `i` steps away from `near` by the repulsion,
   * and only when the repulsion is a positive number; no other tree changes.
   */
  function Repel(catalog: seq<Species>, ts: seq<Tree>, i: nat, near: Tree, mode: Repulsion, env: Env): (r: seq<Tree>)
    requires i < |ts|
    requires mode.MatureOverlap? ==> KnownPair(catalog, near, ts[i])
    ensures |r| == |ts|
    ensures forall j :: 0 <= j < |ts| && j != i ==> r[j] == ts[j]
    ensures SameButPosition(r[i], ts[i])
    ensures !(RepulsionOf(catalog, mode, near, ts[i]).Some? && RepulsionOf(catalog, mode, near, ts[i]).value > 0.0) ==> r == ts
  {
    var repulsion := RepulsionOf(catalog, mode, near, ts[i]);
    if repulsion.Some? && repulsion.value > 0.0 then
      var u := env.unit(ts[i], near);
      ts[i := ts[i].(x := ts[i].x - u.0 * repulsion.value, y := ts[i].y - u.1 * repulsion.value)]
    else ts
  }

  const DeclusterPasses: nat := 50

  /**
   * `declusterTrees`: fifty passes, in each of which every tree in list order steps away
   * from each of its (at most two) nearest neighbours. It keeps the number of trees and
   * every field but the positions.
   */
  method Decluster(catalog: seq<Species>, ts: seq<Tree>, mode: Repulsion, env: Env) returns (r: seq<Tree>)
    requires mode.MatureOverlap? ==> KnownSpecies(catalog, ts)
    ensures |r| == |ts|
    ensures forall k :: 0 <= k < |ts| ==> SameButPosition(r[k], ts[k])
  {
    r := ts;
    var pass := 0;
    while pass < DeclusterPasses
      invariant |r| == |ts|
      invariant forall k :: 0 <= k < |ts| ==> SameButPosition(r[k], ts[k])
    {
      var i := 0;
      while i < |r|
        invariant |r| == |ts|
        invariant forall k :: 0 <= k < |ts| ==> SameButPosition(r[k], ts[k])
      {
        var near := NearestTrees(r, i);
        var nearTrees := seq(|near|, m requires 0 <= m < |near| => r[near[m]]);
        var m := 0;
        while m < |nearTrees|
          invariant |r| == |ts|
          invariant forall k :: 0 <= k < |ts| ==> SameButPosition(r[k], ts[k])
          invariant forall n :: 0 <= n < |nearTrees| ==> SameButPosition(nearTrees[n], ts[near[n]])
        {
          assert mode.MatureOverlap? ==> KnownPair(catalog, nearTrees[m], r[i]) by {
            if mode.MatureOverlap? {
              assert FindSpecies(catalog, ts[near[m]].speciesId).Some?;
              assert FindSpecies(catalog, ts[i].speciesId).Some?;
            }
          }
          r := Repel(catalog, r, i, nearTrees[m], mode, env);
          m := m + 1;
        }
        i := i + 1;
      }
      pass := pass + 1;
    }
  }

  // ---------------------------------------------------------------- planting

  /** The `Math.random()` values one planted tree uses: position and size. */
  datatype PlantDraw = PlantDraw(x: real, y: real, size: real)

  predicate ValidDraw(d: PlantDraw)
  {
    0.0 <= d.x < 1.0 && 0.0 <= d.y < 1.0 && 0.0 <= d.size < 1.0
  }

  /**
   * A newly planted tree of species `s`: full health, radius 0, age 0, a position inside
   * the plot and a size multiplier in [0.5, 1).
   */
  function PlantedTree(s: Species, d: PlantDraw, width: real, height: real): (t: Tree)
    ensures t.speciesId == s.id && t.color == s.color
    ensures t.health == 1.0 && t.radius == 0.0 && t.age == 0 && t.isDead.None?
    ensures ValidDraw(d) ==> 0.5 <= t.sizeMultiplier < 1.0
    ensures ValidDraw(d) && width >= 0.0 && height >= 0.0 ==> InBounds(t, width, height)
  {
    PlantBound(d.x, width);
    PlantBound(d.y, height);
    Tree(d.x * width, d.y * height, 0.0, s.id, s.color, 0, None, d.size / 2.0 + 0.5, 1.0, None, None)
  }

  lemma PlantBound(u: real, extent: real)
    ensures 0.0 <= u < 1.0 && extent >= 0.0 ==> 0.0 <= u * extent <= extent
  {
    if 0.0 <= u < 1.0 && extent >= 0.0 {
      assert u * extent <= 1.0 * extent;
    }
  }
}
