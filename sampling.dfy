/**
 * Species-probability vectors: the normalisation both the optimiser and the worker apply
 * (each weight divided by the sum of all weights), and the draw that picks a species by
 * cumulative-probability thresholds.
 */
module Sampling {
  import opened Wrappers
  import opened JsMath
  import opened Types

  predicate NonNegative(xs: seq<real>)
  {
    forall i :: 0 <= i < |xs| ==> xs[i] >= 0.0
  }

  // ---------------------------------------------------------------- normalisation

  function Scaled(xs: seq<real>, c: real): (ys: seq<real>)
    requires c != 0.0
    ensures |ys| == |xs|
    ensures forall i :: 0 <= i < |xs| ==> ys[i] == xs[i] / c
  {
    seq(|xs|, i requires 0 <= i < |xs| => xs[i] / c)
  }

  lemma {:induction false} SumScaled(xs: seq<real>, c: real)
    requires c != 0.0
    ensures Sum(Scaled(xs, c)) == Sum(xs) / c
  {
    if xs != [] {
      var init := xs[..|xs| - 1];
      var ys := Scaled(xs, c);
      assert ys[..|ys| - 1] == Scaled(init, c);
      SumScaled(init, c);
      var a, b := Sum(init), xs[|xs| - 1];
      assert Sum(ys) == a / c + b / c;
      assert a / c + b / c == (a + b) / c;
    }
  }

  lemma {:induction false} EntryAtMostSum(xs: seq<real>, i: nat)
    requires NonNegative(xs) && i < |xs|
    ensures xs[i] <= Sum(xs)
  {
    var init := xs[..|xs| - 1];
    assert NonNegative(init);
    if i == |xs| - 1 {
      SumNonNegative(init);
    } else {
      EntryAtMostSum(init, i);
    }
  }

  /**
   * Every weight divided by the sum of the weights. A zero sum divides into NaN, which
   * every entry then is (all weights the source normalises are non-negative, so a zero
   * sum means all of them are zero).
   */
  function Normalize(raw: seq<real>): (p: Probabilities)
    ensures p.Length() == |raw|
    ensures p.NotANumber? <==> Sum(raw) == 0.0
    ensures p.Finite? ==> forall i :: 0 <= i < |raw| ==> p.values[i] * Sum(raw) == raw[i]
  {
    if Sum(raw) == 0.0 then NotANumber(|raw|) else Finite(Scaled(raw, Sum(raw)))
  }

  /** A normalised vector sums to 1. */
  lemma NormalizedSumsToOne(raw: seq<real>)
    requires Sum(raw) != 0.0
    ensures Normalize(raw).Finite? && Sum(Normalize(raw).values) == 1.0
  {
    var total := Sum(raw);
    SumScaled(raw, total);
    assert Normalize(raw).values == Scaled(raw, total);
    assert total / total == 1.0;
  }

  /** Normalised non-negative weights with a positive sum each lie in [0, 1]. */
  lemma NormalizedInUnit(raw: seq<real>, i: nat)
    requires NonNegative(raw) && Sum(raw) != 0.0 && i < |raw|
    ensures Normalize(raw).Finite? && 0.0 <= Normalize(raw).values[i] <= 1.0
  {
    EntryAtMostSum(raw, i);
    ShareInUnit(raw[i], Sum(raw));
  }

  lemma ShareInUnit(a: real, total: real)
    requires 0.0 <= a <= total && total != 0.0
    ensures 0.0 <= a / total <= 1.0
  {
    var q := a / total;
    assert q * total == a;
    AtMostOne(q, total);
  }

  lemma AtMostOne(q: real, t: real)
    requires t > 0.0 && q * t <= t
    ensures q <= 1.0
  {
  }

  /** Of non-negative weights the sum is 0 exactly when every weight is 0. */
  lemma {:induction false} ZeroSumIff(raw: seq<real>)
    requires NonNegative(raw)
    ensures Sum(raw) == 0.0 <==> forall i :: 0 <= i < |raw| ==> raw[i] == 0.0
  {
    if raw != [] {
      var init := raw[..|raw| - 1];
      assert NonNegative(init);
      ZeroSumIff(init);
      SumNonNegative(init);
      if Sum(raw) == 0.0 {
        forall i | 0 <= i < |raw| ensures raw[i] == 0.0 {
          if i < |raw| - 1 {
            assert init[i] == raw[i];
          }
        }
      }
    }
  }

  // ---------------------------------------------------------------- cumulative draw

  /** The running total once entry `k` has been added: the cutoff of entry `k`. */
  function Threshold(ps: seq<real>, k: nat): real
    requires k < |ps|
  {
    Sum(ps[..k + 1])
  }

  lemma ThresholdStep(ps: seq<real>, k: nat)
    requires k < |ps|
    ensures Threshold(ps, k) == (if k == 0 then 0.0 else Threshold(ps, k - 1)) + ps[k]
  {
    var prefix := ps[..k + 1];
    assert prefix[..|prefix| - 1] == ps[..k];
    assert Sum(prefix) == Sum(ps[..k]) + ps[k];
    if k == 0 {
      assert ps[..k] == [];
    }
  }

  /** The first index from `k` on whose cutoff exceeds `u`, if there is one. */
  function FirstAbove(ps: seq<real>, u: real, k: nat): (r: Option<nat>)
    requires k <= |ps|
    ensures r.Some? ==> k <= r.value < |ps| && u < Threshold(ps, r.value)
    ensures r.Some? ==> forall j :: k <= j < r.value ==> Threshold(ps, j) <= u
    ensures r.None? ==> forall j :: k <= j < |ps| ==> Threshold(ps, j) <= u
    decreases |ps| - k
  {
    if k == |ps| then None
    else if u < Threshold(ps, k) then Some(k)
    else FirstAbove(ps, u, k + 1)
  }

  /**
   * The index the draw `u` selects: the first entry whose running total exceeds `u`.
   * Against NaN cutoffs every comparison is false, so nothing is chosen.
   */
  function SampleIndex(ps: Probabilities, u: real): (r: Option<nat>)
    ensures r.Some? ==> r.value < ps.Length()
  {
    match ps
    case Finite(values) => FirstAbove(values, u, 0)
    case NotANumber(_) => None
  }

  /** A species of probability 0 is never chosen by a non-negative draw. */
  lemma ZeroNeverChosen(ps: seq<real>, u: real, k: nat)
    requires u >= 0.0 && k < |ps| && ps[k] == 0.0
    ensures SampleIndex(Finite(ps), u) != Some(k)
  {
    ThresholdStep(ps, k);
  }

  lemma {:induction false} ThresholdAtMostTotal(ps: seq<real>, k: nat)
    requires NonNegative(ps) && k < |ps|
    ensures Threshold(ps, k) <= Sum(ps)
  {
    SumAppend(ps[..k + 1], ps[k + 1..]);
    assert ps[..k + 1] + ps[k + 1..] == ps;
    assert NonNegative(ps[k + 1..]);
    SumNonNegative(ps[k + 1..]);
  }

  /** A draw at or above the total of non-negative weights chooses nothing. */
  lemma AboveTotalChoosesNothing(ps: seq<real>, u: real)
    requires NonNegative(ps) && u >= Sum(ps)
    ensures SampleIndex(Finite(ps), u).None?
  {
    if SampleIndex(Finite(ps), u).Some? {
      ThresholdAtMostTotal(ps, SampleIndex(Finite(ps), u).value);
    }
  }

  /** A draw below the total always chooses something: the last cutoff is the total. */
  lemma BelowTotalChoosesSome(ps: seq<real>, u: real)
    requires |ps| > 0 && u < Sum(ps)
    ensures SampleIndex(Finite(ps), u).Some?
  {
    assert ps[..|ps|] == ps;
    assert Threshold(ps, |ps| - 1) == Sum(ps);
  }

  /** The two loops of the draw: accumulate the cutoffs, then pick the first one above `u`. */
  method ChooseIndex(ps: Probabilities, u: real) returns (chosen: Option<nat>)
    ensures chosen == SampleIndex(ps, u)
  {
    var n := ps.Length();
    // the cutoffs, `None` standing for NaN
    var thresholds: seq<Option<real>> := [];
    var runningTotal: Option<real> := Some(0.0);
    var k := 0;
    while k < n
      invariant 0 <= k <= n && |thresholds| == k
      invariant ps.NotANumber? ==> (k > 0 ==> runningTotal.None?) && forall j :: 0 <= j < k ==> thresholds[j].None?
      invariant ps.Finite? ==> runningTotal == Some(Sum(ps.values[..k]))
      invariant ps.Finite? ==> forall j :: 0 <= j < k ==> thresholds[j] == Some(Threshold(ps.values, j))
    {
      match ps {
        case Finite(values) =>
          assert values[..k + 1][..k] == values[..k];
          runningTotal := Some(runningTotal.value + values[k]);
        case NotANumber(_) =>
          runningTotal := None;
      }
      thresholds := thresholds + [runningTotal];
      k := k + 1;
    }
    chosen := None;
    k := 0;
    while k < n
      invariant 0 <= k <= n
      invariant ps.NotANumber? ==> chosen.None?
      invariant ps.Finite? && chosen.None? ==> FirstAbove(ps.values, u, 0) == FirstAbove(ps.values, u, k)
      invariant ps.Finite? && chosen.Some? ==> chosen == FirstAbove(ps.values, u, 0)
    {
      if chosen.None? && thresholds[k].Some? && u < thresholds[k].value {
        chosen := Some(k);
      }
      k := k + 1;
    }
  }
}
