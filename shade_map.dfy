/**
 * The sunlight reading of the rasterised shade map: for each tree, the alpha channel of the
 * window of pixels around it is reduced to a sunlight intensity in [0, 1] that is written into
 * the tree. The canvas itself is an input: the bytes a window reads are given by `imageData`.
 */
module ShadeMap {
  import opened Wrappers
  import opened JsMath
  import opened Types

  /** One entry of the RGBA bytes a canvas window returns. */
  type Byte = b: int | 0 <= b < 256

  /** `treeShadeOpacity`: each tree's shade darkens the canvas by this alpha fraction. */
  const TreeShadeOpacity: real := 0.1

  /** `Math.round(treeShadeOpacity * 255)`, the alpha a single layer of shade leaves. */
  function TreeShadeOpacity4Bit(): int
  {
    Round(TreeShadeOpacity * 255.0)
  }

  lemma ShadeThreshold()
    ensures TreeShadeOpacity4Bit() == 26
  {
  }

  /** `26 - Math.min(Math.max(pixelValue - treeShadeOpacity4Bit, 0), 26)`. */
  function AlphaContribution(a: Byte): (c: int)
    ensures 0 <= c <= 26
    ensures a <= 26 ==> c == 26
    ensures a >= 52 ==> c == 0
    ensures 26 <= a <= 52 ==> c == 52 - a
  {
    ShadeThreshold();
    26 - Min(Max((a - TreeShadeOpacity4Bit()) as real, 0.0), 26.0).Floor
  }

  /** The alpha channel: every byte at an index of remainder 3 modulo 4. */
  predicate IsAlpha(index: nat)
  {
    index % 4 == 3
  }

  /** `sunlightSumAllPixels4Bit` after the bytes of `data`. */
  function AlphaSum(data: seq<Byte>): int
  {
    if data == [] then 0
    else AlphaSum(data[..|data| - 1]) + (if IsAlpha(|data| - 1) then AlphaContribution(data[|data| - 1]) else 0)
  }

  /** `numPixels` after the bytes of `data`: the alpha bytes it holds. */
  function AlphaCount(data: seq<Byte>): nat
  {
    if data == [] then 0
    else AlphaCount(data[..|data| - 1]) + (if IsAlpha(|data| - 1) then 1 else 0)
  }

  /** Exactly one byte of every four is an alpha byte. */
  lemma {:induction false} AlphaCountQuarter(data: seq<Byte>)
    ensures AlphaCount(data) == |data| / 4
  {
    if data != [] {
      AlphaCountQuarter(data[..|data| - 1]);
    }
  }

  /** Each alpha byte adds between 0 and 26. */
  lemma {:induction false} AlphaSumBounds(data: seq<Byte>)
    ensures 0 <= AlphaSum(data) <= 26 * AlphaCount(data)
  {
    if data != [] {
      AlphaSumBounds(data[..|data| - 1]);
    }
  }

  /** A window no tree shades, alpha at most 26, adds the full 26 per pixel; one shaded twice over, alpha 52 or more, adds nothing. */
  lemma {:induction false} AlphaSumExtremes(data: seq<Byte>)
    ensures (forall i :: 0 <= i < |data| ==> data[i] <= 26) ==> AlphaSum(data) == 26 * AlphaCount(data)
    ensures (forall i :: 0 <= i < |data| ==> data[i] >= 52) ==> AlphaSum(data) == 0
  {
    if data != [] {
      var init := data[..|data| - 1];
      AlphaSumExtremes(init);
      assert forall i :: 0 <= i < |init| ==> init[i] == data[i];
    }
  }

  /** The `imageData.data.forEach` loop: the alpha sum and the pixel count. */
  method SumAlpha(data: seq<Byte>) returns (sunlightSum: int, numPixels: nat)
    ensures sunlightSum == AlphaSum(data) && numPixels == AlphaCount(data)
  {
    sunlightSum := 0;
    numPixels := 0;
    var index := 0;
    while index < |data|
      invariant 0 <= index <= |data|
      invariant sunlightSum == AlphaSum(data[..index]) && numPixels == AlphaCount(data[..index])
    {
      assert data[..index + 1][..index] == data[..index];
      if index % 4 == 3 {
        sunlightSum := sunlightSum + AlphaContribution(data[index]);
        numPixels := numPixels + 1;
      }
      index := index + 1;
    }
    assert data[..|data|] == data;
  }

  /** The shade scalar: 10 treats a tree's shade as fully opaque. */
  const Scalar: real := 10.0

  /**
   * `Math.min(sunlightSumAllPixels4Bit / 255 / numPixels * scalar, 1)`; `None` stands for the
   * NaN of a window with no alpha byte (0 / 0).
   */
  function SunIntensity(data: seq<Byte>): (r: Option<real>)
    ensures r.Some? <==> |data| >= 4
    ensures r.Some? ==> 0.0 <= r.value <= 1.0
  {
    AlphaCountQuarter(data);
    AlphaSumBounds(data);
    var n := AlphaCount(data);
    if n == 0 then None
    else Some(Min(AlphaSum(data) as real / 255.0 / n as real * Scalar, 1.0))
  }

  /** An unshaded window reads full sun; a window shaded twice over reads none. */
  lemma SunIntensityExtremes(data: seq<Byte>)
    requires |data| >= 4
    ensures (forall i :: 0 <= i < |data| ==> data[i] <= 26) ==> SunIntensity(data) == Some(1.0)
    ensures (forall i :: 0 <= i < |data| ==> data[i] >= 52) ==> SunIntensity(data) == Some(0.0)
  {
    AlphaSumExtremes(data);
    AlphaCountQuarter(data);
    var n := AlphaCount(data);
    assert n > 0;
    PerPixel((26 * n) as real, n as real, 26.0);
  }

  lemma PerPixel(sum: real, n: real, k: real)
    requires n > 0.0 && sum == k * n
    ensures sum / 255.0 / n == k / 255.0
  {
    assert sum / 255.0 == (k / 255.0) * n;
  }

  /** The window `getImageData` reads for a tree: its bounding square, at least one pixel wide. */
  datatype Window = Window(x: int, y: int, side: int)

  /** `Math.floor(tree.x - tree.radius)`, the same for y, and `Math.round(tree.radius * 2) || 1`. */
  function WindowOf(t: Tree): (w: Window)
    ensures w.x as real <= t.x - t.radius < w.x as real + 1.0
    ensures w.y as real <= t.y - t.radius < w.y as real + 1.0
    ensures t.radius >= 0.0 ==> w.side >= 1
    ensures w.side == Round(t.radius * 2.0) || (Round(t.radius * 2.0) == 0 && w.side == 1)
  {
    var diameter := Round(t.radius * 2.0);
    Window((t.x - t.radius).Floor, (t.y - t.radius).Floor, if diameter == 0 then 1 else diameter)
  }

  /** A full window of `side` x `side` RGBA pixels always gives a number. */
  lemma FullWindowHasIntensity(data: seq<Byte>, side: nat)
    requires side >= 1 && |data| == 4 * side * side
    ensures SunIntensity(data).Some?
  {
    assert side * side >= 1 by {
      assert side * side >= side * 1;
    }
  }

  /**
   * The second `trees.forEach` of `recalculateShadeMapWithTrees`: each tree's
   * `currentSunIntensity` becomes the reading of its window, and no other field changes.
   */
  method RecalculateSunIntensities(trees: array<Tree>, imageData: Window -> seq<Byte>)
    modifies trees
    ensures forall i :: 0 <= i < trees.Length ==>
              trees[i] == old(trees[i]).(currentSunIntensity := SunIntensity(imageData(WindowOf(old(trees[i])))))
  {
    var index := 0;
    while index < trees.Length
      invariant 0 <= index <= trees.Length
      invariant forall i :: 0 <= i < index ==>
                  trees[i] == old(trees[i]).(currentSunIntensity := SunIntensity(imageData(WindowOf(old(trees[i])))))
      invariant forall i :: index <= i < trees.Length ==> trees[i] == old(trees[i])
    {
      var tree := trees[index];
      var data := imageData(WindowOf(tree));
      var sunlightSum, numPixels := SumAlpha(data);
      var intensity: Option<real> := None;
      if numPixels != 0 {
        intensity := Some(Min(sunlightSum as real / 255.0 / numPixels as real * Scalar, 1.0));
      }
      trees[index] := tree.(currentSunIntensity := intensity);
      index := index + 1;
    }
  }
}
