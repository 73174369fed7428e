/**
 * The arithmetic JavaScript's `Math` and `Number` give the source, over exact reals:
 * sums, `Math.round`, `Math.round(Math.sqrt(s))`, integer powers and `toFixed`.
 */
module JsMath {

  function Min(a: real, b: real): real { if a <= b then a else b }

  function Max(a: real, b: real): real { if a >= b then a else b }

  /** lodash `sum`, and every `forEach` that adds into a running total. */
  function Sum(xs: seq<real>): real
  {
    if xs == [] then 0.0 else Sum(xs[..|xs| - 1]) + xs[|xs| - 1]
  }

  lemma {:induction false} SumAppend(xs: seq<real>, ys: seq<real>)
    ensures Sum(xs + ys) == Sum(xs) + Sum(ys)
    decreases |ys|
  {
    if ys == [] {
      assert xs + ys == xs;
    } else {
      var ys' := ys[..|ys| - 1];
      assert (xs + ys)[..|xs + ys| - 1] == xs + ys';
      SumAppend(xs, ys');
    }
  }

  lemma {:induction false} SumNonNegative(xs: seq<real>)
    requires forall i :: 0 <= i < |xs| ==> xs[i] >= 0.0
    ensures Sum(xs) >= 0.0
  {
    if xs != [] {
      SumNonNegative(xs[..|xs| - 1]);
    }
  }

  lemma ProductPositive(a: real, b: real)
    requires a > 0.0 && b > 0.0
    ensures a * b > 0.0
  {
  }

  /** `Math.round`: the nearest integer, halves rounded up. */
  function Round(x: real): (r: int)
    ensures r as real - 0.5 <= x < r as real + 0.5
  {
    (x + 0.5).Floor
  }

  lemma RoundMonotone(x: real, y: real)
    requires x <= y
    ensures Round(x) <= Round(y)
  {
  }

  /** A draw of [0, 1) scales a positive extent into [0, extent). */
  lemma UnitScale(u: real, n: real)
    ensures 0.0 <= u < 1.0 && n > 0.0 ==> 0.0 <= u * n < n
  {
    if 0.0 <= u < 1.0 && n > 0.0 {
      assert u * n < 1.0 * n;
    }
  }

  lemma SquareNonNegative(x: real)
    ensures x * x >= 0.0
  {
    if x < 0.0 {
      assert x * x == (-x) * (-x);
    }
  }

  lemma ScaleMonotone(k: real, a: real, b: real)
    requires k >= 0.0 && a <= b
    ensures k * a / 2000.0 <= k * b / 2000.0
  {
    assert k * b - k * a == k * (b - a);
  }

  lemma DivideMonotone(a: real, b: real, p: real)
    requires a <= b && p > 0.0
    ensures a / p <= b / p
  {
    assert b / p - a / p == (b - a) / p;
  }

  /** `Math.round(Math.sqrt(s))` for a non-negative `s`, on exact reals. */
  function RoundedSqrt(s: real): (r: nat)
    requires s >= 0.0
    ensures s < (r as real + 0.5) * (r as real + 0.5)
    ensures r > 0 ==> (r as real - 0.5) * (r as real - 0.5) <= s
  {
    SqrtFrom(s, 0)
  }

  function SqrtFrom(s: real, k: nat): (r: nat)
    requires s >= 0.0
    requires k > 0 ==> (k as real - 0.5) * (k as real - 0.5) <= s
    ensures s < (r as real + 0.5) * (r as real + 0.5)
    ensures r > 0 ==> (r as real - 0.5) * (r as real - 0.5) <= s
    decreases s.Floor + 1 - k
  {
    if s < (k as real + 0.5) * (k as real + 0.5) then k
    else
      assert k as real <= s by {
        assert (k as real + 0.5) * (k as real + 0.5) == k as real * k as real + k as real + 0.25;
        assert k as real * k as real >= 0.0;
      }
      SqrtFrom(s, k + 1)
  }

  /** `Math.pow(x, n)` for a natural exponent. */
  function Pow(x: real, n: nat): real
  {
    if n == 0 then 1.0 else x * Pow(x, n - 1)
  }

  lemma {:induction false} PowInUnit(x: real, n: nat)
    requires 0.0 <= x < 1.0 && n >= 1
    ensures 0.0 <= Pow(x, n) <= x
  {
    if n > 1 {
      PowInUnit(x, n - 1);
      assert x * Pow(x, n - 1) <= x * x by {
        assert Pow(x, n - 1) <= x;
      }
    }
  }

  lemma {:induction false} PowZeroIff(x: real, n: nat)
    requires x >= 0.0 && n >= 1
    ensures Pow(x, n) == 0.0 <==> x == 0.0
  {
    if n > 1 {
      PowZeroIff(x, n - 1);
      PowNonNegative(x, n - 1);
    }
  }

  lemma {:induction false} PowNonNegative(x: real, n: nat)
    requires x >= 0.0
    ensures Pow(x, n) >= 0.0
  {
    if n > 0 {
      PowNonNegative(x, n - 1);
    }
  }

  /**
   * `Number(x.toFixed(digits))`: `x` rounded to `digits` decimals, the nearer of the two
   * candidates and the larger one on a tie, computed for |x| and signed afterwards.
   */
  function Fixed(x: real, digits: nat): real
  {
    var scale := Pow(10.0, digits);
    PowTenPositive(digits);
    if x < 0.0 then -(Round(-x * scale) as real / scale)
    else Round(x * scale) as real / scale
  }

  lemma {:induction false} PowTenPositive(n: nat)
    ensures Pow(10.0, n) >= 1.0
  {
    if n > 0 {
      PowTenPositive(n - 1);
    }
  }

  /** `Number(x.toFixed(2))` keeps a value of [-1, 1] in [-1, 1] and keeps its sign. */
  lemma FixedTwoBounds(x: real)
    requires -1.0 <= x <= 1.0
    ensures -1.0 <= Fixed(x, 2) <= 1.0
    ensures x >= 0.0 ==> Fixed(x, 2) >= 0.0
    ensures x <= 0.0 ==> Fixed(x, 2) <= 0.0
  {
    assert Pow(10.0, 2) == 100.0 by {
      assert Pow(10.0, 1) == 10.0 * Pow(10.0, 0);
    }
    if x < 0.0 {
      var r := Round(-x * 100.0);
      assert 0 <= r <= 100;
    } else {
      var r := Round(x * 100.0);
      assert 0 <= r <= 100;
    }
  }
}
