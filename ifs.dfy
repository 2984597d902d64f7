/**
 * The IFSFunction object: it collects affine maps with their selection
 * ladder, iterates them from the origin to build a point cloud, rescales
 * the cloud into pixel coordinates and draws it into a fresh grid.
 */
module Ifs {
  import opened Numeric
  import opened IfsSpec

  /** Coefficients scaled element-wise by a weight row (numpy's array product). */
  function Weighted(params: Coefficients, weights: Option<seq<real>>): (r: Coefficients)
    requires weights.Some? ==> |weights.value| == |params|
    ensures |r| == |params|
    ensures weights.None? ==> r == params
    ensures weights.Some? ==> forall k :: 0 <= k < |r| ==> r[k] == params[k] * weights.value[k]
  {
    match weights
    case None => params
    case Some(w) => seq(|params|, k requires 0 <= k < |params| => params[k] * w[k])
  }

  /** The grid an array holds, row by row. */
  function Grid<T>(image: array2<T>): (g: seq<seq<T>>)
    reads image
    ensures |g| == image.Length0
    ensures forall i :: 0 <= i < image.Length0 ==> |g[i]| == image.Length1
    ensures forall i, j :: 0 <= i < image.Length0 && 0 <= j < image.Length1 ==> g[i][j] == image[i, j]
  {
    seq(image.Length0, i requires 0 <= i < image.Length0 reads image =>
      seq(image.Length1, j requires 0 <= j < image.Length1 reads image => image[i, j]))
  }

  class IfsFunction {
    /** The affine maps, six coefficients each (the source's `function` list). */
    var functions: seq<Coefficients>
    /** The cumulative selection ladder, one step per map. */
    var selectFunction: seq<real>
    /** The running total of the probabilities added so far. */
    var cumProba: real
    /** The point cloud: x and y coordinates, starting with the initial point. */
    var xs: seq<Coord>
    var ys: seq<Coord>
    /** The probabilities passed to set_param, in order. */
    ghost var probas: seq<real>

    ghost predicate Valid()
      reads this
    {
      && WellFormed(functions, selectFunction)
      && |probas| == |functions|
      && selectFunction == Ladder(probas)
      && cumProba == Sum(probas)
      && |xs| == |ys|
    }

    /** A system with no maps whose cloud holds only the initial point. */
    constructor (prevX: real, prevY: real)
      ensures Valid()
      ensures functions == [] && selectFunction == [] && probas == [] && cumProba == 0.0
      ensures xs == [Num(prevX)] && ys == [Num(prevY)]
    {
      functions := [];
      xs, ys := [Num(prevX)], [Num(prevY)];
      selectFunction := [];
      cumProba := 0.0;
      probas := [];
    }

    /**
     * Add one map, scaled by the weight row when one is given, and extend
     * the ladder by the new running total.
     */
    method SetParam(params: Coefficients, proba: real, weights: Option<seq<real>>)
      requires Valid() && |params| == 6
      requires weights.Some? ==> |weights.value| == 6
      modifies this
      ensures Valid()
      ensures functions == old(functions) + [Weighted(params, weights)]
      ensures probas == old(probas) + [proba]
      ensures cumProba == old(cumProba) + proba
      ensures selectFunction == old(selectFunction) + [cumProba]
      ensures xs == old(xs) && ys == old(ys)
    {
      var scaled := Weighted(params, weights);
      functions := functions + [scaled];
      cumProba := cumProba + proba;
      selectFunction := selectFunction + [cumProba];
      LadderSnoc(probas, proba);
      probas := probas + [proba];
    }

    /**
     * Run `iteration` steps from (0, 0), the i-th step driven by rand[i], and
     * append every point reached to the cloud. A step whose random value is
     * above the whole ladder repeats the previous point.
     */
    method Calculate(iteration: nat, rand: seq<real>)
      requires Valid() && |rand| == iteration
      modifies this
      ensures Valid()
      ensures xs == old(xs) + OrbitXs(functions, selectFunction, rand)
      ensures ys == old(ys) + OrbitYs(functions, selectFunction, rand)
      ensures functions == old(functions) && selectFunction == old(selectFunction)
      ensures cumProba == old(cumProba) && probas == old(probas)
    {
      var prevX, prevY := 0.0, 0.0;
      var nextX, nextY := 0.0, 0.0;
      var fs, ladder := functions, selectFunction;
      var i := 0;
      assert rand[..0] == [];
      while i < iteration
        invariant 0 <= i <= iteration
        invariant functions == fs && selectFunction == ladder && WellFormed(fs, ladder)
        invariant cumProba == old(cumProba) && probas == old(probas)
        invariant Point(prevX, prevY) == Last(Orbit(fs, ladder, rand[..i]))
        invariant xs == old(xs) + OrbitXs(fs, ladder, rand[..i])
        invariant ys == old(ys) + OrbitYs(fs, ladder, rand[..i])
      {
        nextX, nextY := StepPoint(fs, ladder, rand[i], prevX, prevY);
        OrbitCoordsSnoc(fs, ladder, rand, i);
        xs := xs + [Num(nextX)];
        ys := ys + [Num(nextY)];
        prevX, prevY := nextX, nextY;
        i := i + 1;
      }
      assert rand[..i] == rand;
    }

    /**
     * Scrub NaN runs and map the cloud to uint16 pixel coordinates inside
     * the padded image. On an error of the source (ok false) the cloud is
     * left as it was.
     */
    method Rescale(imageX: int, imageY: int, padX: int, padY: int) returns (ok: bool)
      requires Valid()
      modifies this
      ensures Valid()
      ensures var r := RescaleSpec(old(xs), old(ys), imageX, imageY, padX, padY);
        && ok == r.Some?
        && (ok ==> xs == Coords(r.value.0) && ys == Coords(r.value.1))
        && (!ok ==> xs == old(xs) && ys == old(ys))
      ensures functions == old(functions) && selectFunction == old(selectFunction)
      ensures cumProba == old(cumProba) && probas == old(probas)
    {
      var r := RescaleSpec(xs, ys, imageX, imageY, padX, padY);
      if r.Some? {
        xs, ys := Coords(r.value.0), Coords(r.value.1);
        ok := true;
      } else {
        ok := false;
      }
    }

    /**
     * Rescale the cloud, then stamp it into a zero imageX x imageY grid: 127
     * at each point, or in patch mode the 3x3 block of the point's 9-bit
     * mask just below and right of it. ok is false where the source raises:
     * an error from rescale or a write outside the grid.
     */
    method Draw(imageX: nat, imageY: nat, drawPoint: bool, masks: seq<int>, padX: int, padY: int)
      returns (image: array2<int>, ok: bool)
      requires Valid()
      requires !drawPoint ==> |xs| <= |masks|
      requires forall k :: 0 <= k < |masks| ==> 1 <= masks[k] <= 511
      modifies this
      ensures Valid()
      ensures fresh(image)
      ensures var r := Render(old(xs), old(ys), imageX, imageY, drawPoint, masks, padX, padY);
        ok == r.Some? && (ok ==> Grid(image) == r.value)
      ensures var r := RescaleSpec(old(xs), old(ys), imageX, imageY, padX, padY);
        && (r.Some? ==> xs == Coords(r.value.0) && ys == Coords(r.value.1))
        && (r.None? ==> xs == old(xs) && ys == old(ys))
      ensures functions == old(functions) && selectFunction == old(selectFunction)
      ensures cumProba == old(cumProba) && probas == old(probas)
    {
      var rescaled := Rescale(imageX, imageY, padX, padY);
      if !rescaled {
        image := new int[0, 0];
        ok := false;
        return;
      }
      ghost var r := RescaleSpec(old(xs), old(ys), imageX, imageY, padX, padY);
      PixelsOfCoords(r.value.0);
      PixelsOfCoords(r.value.1);
      image, ok := Paint(Pixels(xs), Pixels(ys), imageX, imageY, drawPoint, masks);
    }
  }

  /**
   * The drawing loop of draw: a zero grid, then each point stamped in
   * order. ok is false when a point's write falls outside the grid, where
   * numpy raises.
   */
  method Paint(px: seq<int>, py: seq<int>, imageX: nat, imageY: nat, drawPoint: bool, masks: seq<int>)
    returns (image: array2<int>, ok: bool)
    requires |px| == |py| && (!drawPoint ==> |px| <= |masks|)
    ensures fresh(image)
    ensures ok == Fits(px, py, drawPoint, imageX, imageY)
    ensures ok ==> Grid(image) == Canvas(px, py, drawPoint, masks, imageX, imageY)
  {
    image := new int[imageX, imageY]((i, j) => 0);
    var k := 0;
    while k < |px|
      invariant 0 <= k <= |px|
      invariant image.Length0 == imageX && image.Length1 == imageY
      invariant forall t :: 0 <= t < k ==> PointFits(px[t], py[t], drawPoint, imageX, imageY)
      invariant forall i, j :: 0 <= i < imageX && 0 <= j < imageY ==>
        image[i, j] == PixelAfter(px, py, drawPoint, masks, k, i, j)
    {
      var x, y := px[k], py[k];
      if !PointFits(x, y, drawPoint, imageX, imageY) {
        ok := false;
        return;
      }
      Stamp(image, x, y, drawPoint, if drawPoint then 0 else masks[k]);
      k := k + 1;
    }
    ok := true;
    GridIs(image, Canvas(px, py, drawPoint, masks, imageX, imageY));
  }

  /**
   * One iteration of calculate: walk the maps in order and apply the first
   * whose ladder step is not below r; when r is above every step, the point
   * stays where it is.
   */
  method StepPoint(fs: seq<Coefficients>, ladder: seq<real>, r: real, prevX: real, prevY: real)
    returns (nextX: real, nextY: real)
    requires WellFormed(fs, ladder)
    ensures Point(nextX, nextY) == Step(fs, ladder, r, Point(prevX, prevY))
  {
    nextX, nextY := prevX, prevY;
    var k := 0;
    while k < |fs|
      invariant 0 <= k <= |fs|
      invariant forall t :: 0 <= t < k ==> ladder[t] < r
    {
      if r <= ladder[k] {
        var next := Affine(fs[k], Point(prevX, prevY));
        nextX, nextY := next.x, next.y;
        assert Select(ladder, r) == Some(k);
        return;
      }
      k := k + 1;
    }
  }

  /**
   * Write one point into the grid: 127 at (x, y), or the mask's 3x3 block
   * at rows x+1..x+3 and columns y+1..y+3. Every other cell keeps its value.
   */
  method Stamp(image: array2<int>, x: int, y: int, drawPoint: bool, mask: int)
    requires PointFits(x, y, drawPoint, image.Length0, image.Length1)
    modifies image
    ensures forall i, j :: 0 <= i < image.Length0 && 0 <= j < image.Length1 ==>
      image[i, j] == if Covers(drawPoint, x, y, i, j) then Written(drawPoint, mask, x, y, i, j) else old(image[i, j])
  {
    if drawPoint {
      image[x, y] := 127;
    } else {
      forall i, j | x + 1 <= i <= x + 3 && y + 1 <= j <= y + 3 {
        image[i, j] := PatchValue(mask, x, y, i, j);
      }
    }
  }

  /** An array whose cells agree with a grid of its shape holds that grid. */
  lemma GridIs<T>(image: array2<T>, g: seq<seq<T>>)
    requires |g| == image.Length0 && forall i :: 0 <= i < |g| ==> |g[i]| == image.Length1
    requires forall i, j :: 0 <= i < image.Length0 && 0 <= j < image.Length1 ==> image[i, j] == g[i][j]
    ensures Grid(image) == g
  {
    var h := Grid(image);
    forall i | 0 <= i < |g| ensures h[i] == g[i] {
    }
  }
}
