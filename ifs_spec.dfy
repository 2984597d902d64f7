/**
 * The value-level meaning of an Iterated Function System as the generator
 * uses it: choosing a map from a cumulative probability ladder, iterating
 * from (0, 0), scrubbing NaN runs, rescaling into a padded image and
 * stamping points or 3x3 patches into a zero grid.
 */
module IfsSpec {
  import opened Numeric

  /** A coordinate as numpy holds it: a number, or NaN. */
  datatype Coord = Num(v: real) | NaN

  /** One point of an orbit. */
  datatype Point = Point(x: real, y: real)

  /** The coefficients a, b, c, d, e, f of one affine map. */
  type Coefficients = seq<real>

  /** The image of p under (a, b, c, d, e, f): (x*a + y*b + e, x*c + y*d + f). */
  function Affine(f: Coefficients, p: Point): Point
    requires |f| == 6
  {
    Point(p.x * f[0] + p.y * f[1] + f[4], p.x * f[2] + p.y * f[3] + f[5])
  }

  /** A system's maps and its ladder line up, and every map has six coefficients. */
  predicate WellFormed(functions: seq<Coefficients>, ladder: seq<real>)
  {
    |functions| == |ladder| && forall k :: 0 <= k < |functions| ==> |functions[k]| == 6
  }

  /** A ladder whose thresholds never decrease. */
  predicate Monotone(ladder: seq<real>)
  {
    forall i, j :: 0 <= i <= j < |ladder| ==> ladder[i] <= ladder[j]
  }

  /**
   * The map a random value selects: the first ladder step whose threshold is
   * not below it, or None when it is above every threshold.
   */
  function Select(ladder: seq<real>, r: real): (k: Option<nat>)
    ensures k.Some? ==>
      (k.value < |ladder| && r <= ladder[k.value] && forall j :: 0 <= j < k.value ==> ladder[j] < r)
    ensures k.None? ==> forall j :: 0 <= j < |ladder| ==> ladder[j] < r
  {
    if |ladder| == 0 then None
    else if r <= ladder[0] then Some(0)
    else
      match Select(ladder[1..], r)
      case None => None
      case Some(k) => Some(k + 1)
  }

  /**
   * On a non-decreasing ladder, map k is selected exactly when the random
   * value lies in (ladder[k-1], ladder[k]], an interval as wide as map k's
   * probability.
   */
  lemma SelectInterval(ladder: seq<real>, r: real, k: nat)
    requires Monotone(ladder) && k < |ladder|
    ensures Select(ladder, r) == Some(k) <==> r <= ladder[k] && (k == 0 || ladder[k - 1] < r)
  {
  }

  /**
   * The cumulative ladder set_param builds from a list of probabilities:
   * step k is the sum of the first k + 1 of them.
   */
  function Ladder(probas: seq<real>): (ladder: seq<real>)
    ensures |ladder| == |probas|
  {
    seq(|probas|, k requires 0 <= k < |probas| => Sum(probas[..k + 1]))
  }

  /** Appending a probability appends the running total to the ladder. */
  lemma LadderSnoc(probas: seq<real>, p: real)
    ensures Ladder(probas + [p]) == Ladder(probas) + [Sum(probas) + p]
  {
    var ext := probas + [p];
    forall k | 0 <= k < |probas| ensures Ladder(ext)[k] == Ladder(probas)[k] {
      assert ext[..k + 1] == probas[..k + 1];
    }
    assert ext[..|ext| - 1] == probas;
    assert ext[..|probas| + 1] == ext;
  }

  /** Non-negative probabilities give a non-decreasing ladder. */
  lemma LadderMonotone(probas: seq<real>)
    requires forall k :: 0 <= k < |probas| ==> probas[k] >= 0.0
    ensures Monotone(Ladder(probas))
  {
    forall i, j | 0 <= i <= j < |probas| ensures Ladder(probas)[i] <= Ladder(probas)[j] {
      SumPrefixMonotone(probas, i + 1, j + 1);
    }
  }

  /**
   * With non-negative probabilities, a random value not above their total
   * always selects a map; one above the total selects none.
   */
  lemma SelectWithinTotal(probas: seq<real>, r: real)
    requires |probas| > 0 && forall k :: 0 <= k < |probas| ==> probas[k] >= 0.0
    ensures Select(Ladder(probas), r).Some? <==> r <= Sum(probas)
  {
    var ladder := Ladder(probas);
    assert probas[..|probas|] == probas;
    assert ladder[|probas| - 1] == Sum(probas);
    LadderMonotone(probas);
  }

  /** One iteration: the selected map applied to p, or p itself when no map is selected. */
  function Step(functions: seq<Coefficients>, ladder: seq<real>, r: real, p: Point): Point
    requires WellFormed(functions, ladder)
  {
    match Select(ladder, r)
    case Some(k) => Affine(functions[k], p)
    case None => p
  }

  /** A random value above the top of a non-decreasing ladder leaves the point where it is. */
  lemma StepAboveLadder(functions: seq<Coefficients>, ladder: seq<real>, r: real, p: Point)
    requires WellFormed(functions, ladder) && Monotone(ladder)
    requires |ladder| > 0 && ladder[|ladder| - 1] < r
    ensures Step(functions, ladder, r, p) == p
  {
  }

  /**
   * The points reached by iterating from (0, 0), the i-th draw choosing the
   * map of the i-th step.
   */
  function Orbit(functions: seq<Coefficients>, ladder: seq<real>, rand: seq<real>): (ps: seq<Point>)
    requires WellFormed(functions, ladder)
    ensures |ps| == |rand|
  {
    if |rand| == 0 then []
    else
      var front := Orbit(functions, ladder, rand[..|rand| - 1]);
      front + [Step(functions, ladder, rand[|rand| - 1], Last(front))]
  }

  /** The latest point of an orbit, or the origin before the first step. */
  function Last(ps: seq<Point>): Point
  {
    if |ps| == 0 then Point(0.0, 0.0) else ps[|ps| - 1]
  }

  /** One more draw extends the orbit by one step from its latest point. */
  lemma OrbitSnoc(functions: seq<Coefficients>, ladder: seq<real>, rand: seq<real>, i: nat)
    requires WellFormed(functions, ladder) && i < |rand|
    ensures Orbit(functions, ladder, rand[..i + 1]) ==
      Orbit(functions, ladder, rand[..i]) + [Step(functions, ladder, rand[i], Last(Orbit(functions, ladder, rand[..i])))]
  {
    assert rand[..i + 1][..i] == rand[..i];
  }

  /** The x coordinates a run of `calculate` appends. */
  function OrbitXs(functions: seq<Coefficients>, ladder: seq<real>, rand: seq<real>): (r: seq<Coord>)
    requires WellFormed(functions, ladder)
    ensures |r| == |rand|
  {
    var ps := Orbit(functions, ladder, rand);
    seq(|ps|, k requires 0 <= k < |ps| => Num(ps[k].x))
  }

  /** The y coordinates a run of `calculate` appends. */
  function OrbitYs(functions: seq<Coefficients>, ladder: seq<real>, rand: seq<real>): (r: seq<Coord>)
    requires WellFormed(functions, ladder)
    ensures |r| == |rand|
  {
    var ps := Orbit(functions, ladder, rand);
    seq(|ps|, k requires 0 <= k < |ps| => Num(ps[k].y))
  }

  /** The coordinates of one more step are appended to those already produced. */
  lemma OrbitCoordsSnoc(functions: seq<Coefficients>, ladder: seq<real>, rand: seq<real>, i: nat)
    requires WellFormed(functions, ladder) && i < |rand|
    ensures var p := Step(functions, ladder, rand[i], Last(Orbit(functions, ladder, rand[..i])));
      && Last(Orbit(functions, ladder, rand[..i + 1])) == p
      && OrbitXs(functions, ladder, rand[..i + 1]) == OrbitXs(functions, ladder, rand[..i]) + [Num(p.x)]
      && OrbitYs(functions, ladder, rand[..i + 1]) == OrbitYs(functions, ladder, rand[..i]) + [Num(p.y)]
  {
    OrbitSnoc(functions, ladder, rand, i);
  }

  // ---------------------------------------------------------------------
  // NaN scrubbing
  // ---------------------------------------------------------------------

  predicate HasNaN(s: seq<Coord>)
  {
    exists p :: 0 <= p < |s| && s[p].NaN?
  }

  predicate NoNaN(s: seq<Coord>)
  {
    forall p :: 0 <= p < |s| ==> s[p].Num?
  }

  /** The positions of NaN entries, in increasing order (numpy's where over isnan). */
  function NanIndices(data: seq<Coord>): (r: seq<int>)
    ensures forall k :: 0 <= k < |r| ==> 0 <= r[k] < |data| && data[r[k]].NaN?
    ensures forall i, j :: 0 <= i < j < |r| ==> r[i] < r[j]
  {
    NanIndicesFrom(data, 0)
  }

  /** The positions of NaN entries at or after `from`, in increasing order. */
  function NanIndicesFrom(data: seq<Coord>, from: nat): (r: seq<int>)
    requires from <= |data|
    ensures forall k :: 0 <= k < |r| ==> from <= r[k] < |data| && data[r[k]].NaN?
    ensures forall i, j :: 0 <= i < j < |r| ==> r[i] < r[j]
    decreases |data| - from
  {
    if from == |data| then []
    else (if data[from].NaN? then [from] else []) + NanIndicesFrom(data, from + 1)
  }

  /** Every NaN position at or after `from` is listed. */
  lemma {:induction false} NanIndicesComplete(data: seq<Coord>, from: nat, p: nat)
    requires from <= p < |data| && data[p].NaN?
    ensures p in NanIndicesFrom(data, from)
    decreases p - from
  {
    if p > from {
      NanIndicesComplete(data, from + 1, p);
    }
  }

  /** The first listed position is the first NaN at or after `from`. */
  lemma {:induction false} NanIndicesFirst(data: seq<Coord>, from: nat)
    requires from <= |data|
    ensures var r := NanIndicesFrom(data, from);
      |r| > 0 ==> forall p :: from <= p < r[0] ==> data[p].Num?
    decreases |data| - from
  {
    if from < |data| && data[from].Num? {
      NanIndicesFirst(data, from + 1);
    }
  }

  /**
   * The rows process_nans marks for deletion: the 100 positions just before
   * the first NaN (some of them negative when that NaN comes early), then
   * every NaN position in increasing order.
   */
  function ProcessNans(data: seq<Coord>): (r: seq<int>)
    requires HasNaN(data)
    ensures |r| > 100 && r[100..] == NanIndices(data)
    ensures forall k :: 0 <= k < 100 ==> r[k] == r[100] - 100 + k
  {
    var nans := NanIndices(data);
    var p :| 0 <= p < |data| && data[p].NaN?;
    NanIndicesComplete(data, 0, p);
    var first := nans[0];
    var r := seq(100, k => first - 100 + k) + nans;
    assert r[100..] == nans;
    r
  }

  /**
   * The marked rows, read back: row 100 is the first NaN, the hundred rows
   * before it are the positions just ahead of it, and every NaN position is
   * marked among the rows from 100 on.
   */
  lemma ProcessNansRows(data: seq<Coord>)
    requires HasNaN(data)
    ensures var r := ProcessNans(data);
      && 0 <= r[100] < |data| && data[r[100]].NaN?
      && (forall p :: 0 <= p < r[100] ==> data[p].Num?)
      && (forall p :: 0 <= p < |data| && data[p].NaN? ==> p in r[100..])
  {
    NanIndicesFirst(data, 0);
    forall p | 0 <= p < |data| && data[p].NaN? ensures p in ProcessNans(data)[100..] {
      NanIndicesComplete(data, 0, p);
    }
  }

  /** Positions below n not listed in del, in increasing order. */
  function Kept(n: nat, del: set<int>): (ps: seq<int>)
    ensures forall k :: 0 <= k < |ps| ==> 0 <= ps[k] < n && ps[k] !in del
    ensures forall p :: 0 <= p < n && p !in del ==> p in ps
    ensures forall i, j :: 0 <= i < j < |ps| ==> ps[i] < ps[j]
    ensures |ps| <= n
  {
    if n == 0 then [] else Kept(n - 1, del) + (if n - 1 in del then [] else [n - 1])
  }

  /** A row index with negative values counted from the end, as numpy reads it. */
  function Normalised(row: int, n: nat): int
  {
    if row < 0 then row + n else row
  }

  /** Every row lies in [-n, n), the range numpy's delete accepts. */
  predicate RowsInRange(rows: seq<int>, n: nat)
  {
    forall k :: 0 <= k < |rows| ==> -(n as int) <= rows[k] < n
  }

  /** The positions numpy's delete removes. */
  function Deleted(rows: seq<int>, n: nat): set<int>
  {
    set k | 0 <= k < |rows| :: Normalised(rows[k], n)
  }

  /** numpy's delete along axis 0; None is its IndexError for a row outside [-n, n). */
  function Delete<T>(s: seq<T>, rows: seq<int>): (r: Option<seq<T>>)
    ensures r.Some? <==> RowsInRange(rows, |s|)
    ensures r.Some? ==> var ps := Kept(|s|, Deleted(rows, |s|));
      |r.value| == |ps| && forall k :: 0 <= k < |ps| ==> r.value[k] == s[ps[k]]
  {
    if !RowsInRange(rows, |s|) then None
    else
      var ps := Kept(|s|, Deleted(rows, |s|));
      Some(seq(|ps|, k requires 0 <= k < |ps| => s[ps[k]]))
  }

  /** Deleting the rows process_nans marks leaves no NaN behind. */
  lemma DeleteNanRows(s: seq<Coord>, t: seq<Coord>)
    requires HasNaN(s) && |s| == |t|
    ensures Delete(s, ProcessNans(s)).Some? <==> Delete(t, ProcessNans(s)).Some?
    ensures Delete(s, ProcessNans(s)).Some? ==> NoNaN(Delete(s, ProcessNans(s)).value)
  {
    NanRowsDeleted(s);
  }

  /** Every NaN position is among the rows process_nans marks. */
  lemma NanRowsDeleted(s: seq<Coord>)
    requires HasNaN(s)
    ensures forall p :: 0 <= p < |s| && s[p].NaN? ==> p in Deleted(ProcessNans(s), |s|)
  {
    var rows := ProcessNans(s);
    forall p | 0 <= p < |s| && s[p].NaN? ensures p in Deleted(rows, |s|) {
      NanIndicesComplete(s, 0, p);
      var i :| 0 <= i < |rows[100..]| && rows[100..][i] == p;
      assert rows[100 + i] == p && Normalised(rows[100 + i], |s|) == p;
    }
  }

  /** Deleting rows from a NaN-free sequence keeps it NaN-free. */
  lemma DeleteKeepsNoNaN(s: seq<Coord>, rows: seq<int>)
    requires NoNaN(s) && Delete(s, rows).Some?
    ensures NoNaN(Delete(s, rows).value)
  {
    var ps := Kept(|s|, Deleted(rows, |s|));
    assert forall k :: 0 <= k < |ps| ==> 0 <= ps[k] < |s|;
  }

  /** The same rows deleted from both axes, so that coordinates stay paired. */
  function DeletePair(xs: seq<Coord>, ys: seq<Coord>, rows: seq<int>): (r: Option<(seq<Coord>, seq<Coord>)>)
    requires |xs| == |ys|
    ensures r.Some? ==> |r.value.0| == |r.value.1| <= |xs|
  {
    match (Delete(xs, rows), Delete(ys, rows))
    case (Some(dx), Some(dy)) => Some((dx, dy))
    case _ => None
  }

  /**
   * The NaN scrub at the start of rescale: rows around the first NaN of xs are
   * deleted from both axes, then rows around the first NaN of what remains of
   * ys. None is numpy's IndexError.
   */
  function Scrub(xs: seq<Coord>, ys: seq<Coord>): (r: Option<(seq<Coord>, seq<Coord>)>)
    requires |xs| == |ys|
    ensures r.Some? ==> |r.value.0| == |r.value.1| <= |xs| && NoNaN(r.value.0) && NoNaN(r.value.1)
    ensures NoNaN(xs) && NoNaN(ys) ==> r == Some((xs, ys))
  {
    var afterX :=
      if HasNaN(xs) then
        DeleteNanRows(xs, ys);
        DeletePair(xs, ys, ProcessNans(xs))
      else Some((xs, ys));
    match afterX
    case None => None
    case Some((xs1, ys1)) =>
      if HasNaN(ys1) then
        var rows := ProcessNans(ys1);
        DeleteNanRows(ys1, xs1);
        var r := DeletePair(xs1, ys1, rows);
        if r.Some? then
          DeleteKeepsNoNaN(xs1, rows);
          r
        else r
      else
        assert NoNaN(ys1);
        afterX
  }

  /** Integer pixel coordinates held as numbers, as rescale stores them back. */
  function Coords(s: seq<int>): (r: seq<Coord>)
    ensures |r| == |s| && NoNaN(r)
    ensures forall k :: 0 <= k < |s| ==> r[k] == Num(s[k] as real)
  {
    seq(|s|, k requires 0 <= k < |s| => Num(s[k] as real))
  }

  /** The integer coordinates of a NaN-free sequence, read back as array indices. */
  function Pixels(s: seq<Coord>): (r: seq<int>)
    requires NoNaN(s)
    ensures |r| == |s|
    ensures forall k :: 0 <= k < |s| ==> r[k] == s[k].v.Floor
  {
    seq(|s|, k requires 0 <= k < |s| => s[k].v.Floor)
  }

  /** Reading stored pixel coordinates back gives the coordinates written. */
  lemma PixelsOfCoords(s: seq<int>)
    ensures Pixels(Coords(s)) == s
  {
  }

  /** The numbers of a NaN-free sequence. */
  function Values(s: seq<Coord>): (r: seq<real>)
    requires NoNaN(s)
    ensures |r| == |s| && forall k :: 0 <= k < |s| ==> s[k] == Num(r[k])
  {
    seq(|s|, k requires 0 <= k < |s| => s[k].v)
  }

  // ---------------------------------------------------------------------
  // Rescaling
  // ---------------------------------------------------------------------

  /** Truncation toward zero, as a C cast from double does it. */
  function Trunc(t: real): int
  {
    if t >= 0.0 then t.Floor else -((-t).Floor)
  }

  /**
   * numpy's conversion of a double to uint16 as x86-64 performs it, for
   * magnitudes below 2^31: truncate toward zero and keep the low 16 bits.
   * Larger magnitudes, NaN and infinity convert to 0 there; the 0 is written
   * out only where RescaleAxis divides by zero, and GeneratorRenders shows the
   * rendered coordinates never reach 2^31.
   */
  function Uint16(t: real): (r: int)
    ensures 0 <= r < 65536
    ensures 0.0 <= t < 65536.0 ==> r == t.Floor
  {
    Trunc(t) % 65536
  }

  /** An axis shifted so that its minimum is 0 when that minimum is negative. */
  function Shifted(v: seq<real>): (w: seq<real>)
    requires |v| > 0
    ensures |w| == |v|
    ensures MinOf(v) < 0.0 ==> forall k :: 0 <= k < |v| ==> w[k] == v[k] - MinOf(v)
    ensures MinOf(v) >= 0.0 ==> w == v
  {
    var m := MinOf(v);
    if m < 0.0 then seq(|v|, k requires 0 <= k < |v| => v[k] - m) else v
  }

  /**
   * One coordinate t of an axis spanning [lo, hi], stretched to
   * [pad, dim - pad] and converted to uint16. A zero range divides by zero;
   * the resulting NaN or infinity converts to 0.
   */
  function ScaleCoord(t: real, lo: real, hi: real, dim: int, pad: int): (r: int)
    ensures 0 <= r < 65536
    ensures hi == lo ==> r == 0
  {
    if hi == lo then 0
    else Uint16(Stretch(t / (hi - lo), (dim - 2 * pad) as real, pad as real))
  }

  /** A fraction q of the span, past the offset. */
  function Stretch(q: real, span: real, offset: real): real
  {
    q * span + offset
  }

  /** A coordinate between 0 and hi lands in [pad, dim - pad]. */
  lemma ScaleCoordBounds(t: real, hi: real, dim: int, pad: int)
    requires 0.0 <= t <= hi && hi > 0.0
    requires 0 <= pad && 2 * pad <= dim && dim - pad < 65536
    ensures pad <= ScaleCoord(t, 0.0, hi, dim, pad) <= dim - pad
  {
    var q := t / (hi - 0.0);
    UnitRatio(t, hi - 0.0);
    StretchBounds(q, (dim - 2 * pad) as real, pad as real);
    CastSum(dim, pad);
    FloorBetween(Stretch(q, (dim - 2 * pad) as real, pad as real), pad, dim - pad);
  }

  /** A fraction in [0, 1] of a non-negative span stays between the offset and the span's end. */
  lemma StretchBounds(q: real, span: real, offset: real)
    requires 0.0 <= q <= 1.0 && span >= 0.0
    ensures offset <= Stretch(q, span, offset) <= span + offset
  {
    UnitScale(q, span);
  }

  lemma CastSum(dim: int, pad: int)
    ensures (dim - 2 * pad) as real + pad as real == (dim - pad) as real
  {
  }

  /** A real between two integers has its floor between them. */
  lemma FloorBetween(u: real, a: int, b: int)
    requires a as real <= u <= b as real
    ensures a <= u.Floor <= b
  {
  }

  /** A value between 0 and a positive bound, divided by the bound, lies in [0, 1]. */
  lemma UnitRatio(t: real, hi: real)
    requires 0.0 <= t <= hi && hi > 0.0
    ensures 0.0 <= t / hi <= 1.0
  {
  }

  /** A fraction in [0, 1] of a non-negative span stays within it. */
  lemma UnitScale(q: real, span: real)
    requires 0.0 <= q <= 1.0 && span >= 0.0
    ensures 0.0 <= q * span <= span
  {
  }

  /** Rescale one axis: shift, divide by its range, stretch to [pad, dim - pad], convert to uint16. */
  function RescaleAxis(v: seq<real>, dim: int, pad: int): (r: seq<int>)
    requires |v| > 0
    ensures |r| == |v|
  {
    var w := Shifted(v);
    var lo, hi := MinOf(w), MaxOf(w);
    seq(|v|, k requires 0 <= k < |v| => ScaleCoord(w[k], lo, hi, dim, pad))
  }

  /**
   * When the axis holds a value not above 0 (the orbit's start point) and
   * spans a non-zero range, every rescaled coordinate lies in
   * [pad, dim - pad]; when its range is zero every coordinate is 0.
   */
  lemma RescaleAxisBounds(v: seq<real>, dim: int, pad: int)
    requires |v| > 0 && MinOf(v) <= 0.0
    requires 0 <= pad && 2 * pad <= dim && dim - pad < 65536
    ensures MaxOf(v) > MinOf(v) ==>
      forall k :: 0 <= k < |v| ==> pad <= RescaleAxis(v, dim, pad)[k] <= dim - pad
    ensures MaxOf(v) == MinOf(v) ==> forall k :: 0 <= k < |v| ==> RescaleAxis(v, dim, pad)[k] == 0
  {
    var w := Shifted(v);
    var lo, hi := MinOf(w), MaxOf(w);
    ShiftedRange(v);
    if hi > lo {
      forall k | 0 <= k < |v|
        ensures pad <= RescaleAxis(v, dim, pad)[k] <= dim - pad
      {
        ScaleCoordBounds(w[k], hi, dim, pad);
      }
    }
  }

  /** Shifting an axis whose minimum is not above 0 puts its minimum at 0 and keeps its range. */
  lemma ShiftedRange(v: seq<real>)
    requires |v| > 0 && MinOf(v) <= 0.0
    ensures MinOf(Shifted(v)) == 0.0
    ensures MaxOf(Shifted(v)) - MinOf(Shifted(v)) == MaxOf(v) - MinOf(v)
  {
    var m, w, top := MinOf(v), Shifted(v), MaxOf(v);
    if m < 0.0 {
      assert m in v && top in v;
      var i :| 0 <= i < |v| && v[i] == m;
      var j :| 0 <= j < |v| && v[j] == top;
      forall k | 0 <= k < |w| ensures w[i] <= w[k] <= w[j] {
        assert m <= v[k] <= top;
      }
      MinAt(w, i);
      MaxAt(w, j);
    }
  }

  /**
   * The rescale step as a whole: scrub NaNs, then rescale each axis. None is
   * an exception of the source: numpy's IndexError from the scrub, or the
   * ValueError of taking the minimum of nothing.
   */
  function RescaleSpec(xs: seq<Coord>, ys: seq<Coord>, imageX: int, imageY: int, padX: int, padY: int)
    : (r: Option<(seq<int>, seq<int>)>)
    requires |xs| == |ys|
    ensures r.Some? ==> |r.value.0| == |r.value.1| <= |xs|
    ensures r.Some? ==> forall k :: 0 <= k < |r.value.0| ==> 0 <= r.value.0[k] < 65536 && 0 <= r.value.1[k] < 65536
  {
    match Scrub(xs, ys)
    case None => None
    case Some((cx, cy)) =>
      if |cx| == 0 then None
      else Some((RescaleAxis(Values(cx), imageX, padX), RescaleAxis(Values(cy), imageY, padY)))
  }

  // ---------------------------------------------------------------------
  // Drawing
  // ---------------------------------------------------------------------

  /** Bit p of a 9-bit mask written most significant bit first ('{:09b}'). */
  function Bit(mask: int, p: nat): (b: int)
    requires p < 9
    ensures b == 0 || b == 1
  {
    (mask / Pow2(8 - p)) % 2
  }

  /** The last k digits of a mask's '{:09b}' string read back as a binary number. */
  function LowDigits(mask: int, k: nat): int
    requires k <= 9
  {
    if k == 0 then 0 else LowDigits(mask, k - 1) + Bit(mask, 9 - k) * Pow2(k - 1)
  }

  /** Going from d to 2d, the remainder gains the next binary digit of m / d. */
  lemma ModStep(m: int, d: nat)
    requires d > 0
    ensures m % (2 * d) == m % d + ((m / d) % 2) * d
  {
    var q, r := m / d, m % d;
    var a, b := q / 2, q % 2;
    assert m == q * d + r;
    assert q * d == a * (2 * d) + b * d by { assert q == 2 * a + b; }
    assert 0 <= b * d < 2 * d - r by { assert b == 0 || b == 1; }
    DivModUnique(m, 2 * d, a, b * d + r);
  }

  /** The last k digits of the string are the mask modulo 2^k. */
  lemma {:induction false} LowDigitsMod(mask: int, k: nat)
    requires k <= 9
    ensures LowDigits(mask, k) == mask % Pow2(k)
  {
    if k > 0 {
      LowDigitsMod(mask, k - 1);
      ModStep(mask, Pow2(k - 1));
    }
  }

  /** The nine digits of '{:09b}' give back every mask in [0, 511]: no bit is lost. */
  lemma MaskDigits(mask: int)
    requires 0 <= mask < 512
    ensures LowDigits(mask, 9) == mask
  {
    LowDigitsMod(mask, 9);
    assert Pow2(9) == 512 by {
      assert Pow2(0) == 1 && Pow2(1) == 2 && Pow2(2) == 4 && Pow2(3) == 8 && Pow2(4) == 16;
      assert Pow2(5) == 32 && Pow2(6) == 64 && Pow2(7) == 128 && Pow2(8) == 256;
    }
    DivModUnique(mask, 512, 0, mask);
  }

  /** A mask drawn from [1, 511] has at least one bit set, so every patch lights a cell. */
  lemma MaskHasSetBit(mask: int)
    requires 1 <= mask <= 511
    ensures exists p :: 0 <= p < 9 && Bit(mask, p) == 1
  {
    assert Pow2(0) == 1 && Pow2(1) == 2 && Pow2(2) == 4 && Pow2(3) == 8 && Pow2(4) == 16;
    assert Pow2(5) == 32 && Pow2(6) == 64 && Pow2(7) == 128 && Pow2(8) == 256;
    if mask >= 256 { assert Bit(mask, 0) == 1; }
    else if mask >= 128 { assert Bit(mask, 1) == 1; }
    else if mask >= 64 { assert Bit(mask, 2) == 1; }
    else if mask >= 32 { assert Bit(mask, 3) == 1; }
    else if mask >= 16 { assert Bit(mask, 4) == 1; }
    else if mask >= 8 { assert Bit(mask, 5) == 1; }
    else if mask >= 4 { assert Bit(mask, 6) == 1; }
    else if mask >= 2 { assert Bit(mask, 7) == 1; }
    else { assert Bit(mask, 8) == 1; }
  }

  /** The patch value that point (x, y) with `mask` writes to cell (i, j) of its 3x3 block. */
  function PatchValue(mask: int, x: int, y: int, i: int, j: int): int
    requires x + 1 <= i <= x + 3 && y + 1 <= j <= y + 3
  {
    127 * Bit(mask, 3 * (i - x - 1) + (j - y - 1))
  }

  /** Whether point (x, y) writes cell (i, j). */
  predicate Covers(drawPoint: bool, x: int, y: int, i: int, j: int)
  {
    if drawPoint then i == x && j == y else x + 1 <= i <= x + 3 && y + 1 <= j <= y + 3
  }

  /** The value the point writes to a cell it covers. */
  function Written(drawPoint: bool, mask: int, x: int, y: int, i: int, j: int): int
    requires Covers(drawPoint, x, y, i, j)
  {
    if drawPoint then 127 else PatchValue(mask, x, y, i, j)
  }

  /**
   * Cell (i, j) after the first k points are drawn: the value written by the
   * last of them that covers the cell, or 0.
   */
  function PixelAfter(xs: seq<int>, ys: seq<int>, drawPoint: bool, masks: seq<int>, k: nat, i: int, j: int): int
    requires |xs| == |ys| && k <= |xs| && (!drawPoint ==> k <= |masks|)
  {
    if k == 0 then 0
    else if Covers(drawPoint, xs[k - 1], ys[k - 1], i, j) then
      Written(drawPoint, if drawPoint then 0 else masks[k - 1], xs[k - 1], ys[k - 1], i, j)
    else PixelAfter(xs, ys, drawPoint, masks, k - 1, i, j)
  }

  /**
   * Whether the write of point (x, y) lies inside an imageX x imageY grid:
   * the cell itself, or the 3x3 block at (x+1..x+3, y+1..y+3).
   */
  predicate PointFits(x: int, y: int, drawPoint: bool, imageX: int, imageY: int)
  {
    0 <= x && 0 <= y &&
    if drawPoint then x < imageX && y < imageY else x + 3 < imageX && y + 3 < imageY
  }

  /** Every point's write lies inside an imageX x imageY grid. */
  predicate Fits(xs: seq<int>, ys: seq<int>, drawPoint: bool, imageX: int, imageY: int)
    requires |xs| == |ys|
  {
    forall k :: 0 <= k < |xs| ==> PointFits(xs[k], ys[k], drawPoint, imageX, imageY)
  }

  /** The grid after every point is drawn. */
  function Canvas(xs: seq<int>, ys: seq<int>, drawPoint: bool, masks: seq<int>, imageX: nat, imageY: nat)
    : (g: seq<seq<int>>)
    requires |xs| == |ys| && (!drawPoint ==> |xs| <= |masks|)
    ensures |g| == imageX && forall i :: 0 <= i < imageX ==> |g[i]| == imageY
  {
    seq(imageX, i => seq(imageY, j => PixelAfter(xs, ys, drawPoint, masks, |xs|, i, j)))
  }

  /** Every cell is 0 or 127. */
  lemma {:induction false} PixelIsBinary(xs: seq<int>, ys: seq<int>, drawPoint: bool, masks: seq<int>,
                                         k: nat, i: int, j: int)
    requires |xs| == |ys| && k <= |xs| && (!drawPoint ==> k <= |masks|)
    ensures PixelAfter(xs, ys, drawPoint, masks, k, i, j) in {0, 127}
  {
    if k > 0 && !Covers(drawPoint, xs[k - 1], ys[k - 1], i, j) {
      PixelIsBinary(xs, ys, drawPoint, masks, k - 1, i, j);
    }
  }

  /** In point mode a cell written once stays 127: every drawn point is lit. */
  lemma {:induction false} PointStaysLit(xs: seq<int>, ys: seq<int>, masks: seq<int>, k: nat, q: nat)
    requires |xs| == |ys| && q < k <= |xs|
    ensures PixelAfter(xs, ys, true, masks, k, xs[q], ys[q]) == 127
  {
    if q < k - 1 && !Covers(true, xs[k - 1], ys[k - 1], xs[q], ys[q]) {
      PointStaysLit(xs, ys, masks, k - 1, q);
    }
  }

  /** In patch mode the last point's block shows its mask, which lights at least one cell. */
  lemma LastPatchLit(xs: seq<int>, ys: seq<int>, masks: seq<int>, k: nat)
    requires |xs| == |ys| && 0 < k <= |xs| && k <= |masks| && 1 <= masks[k - 1] <= 511
    ensures exists i, j ::
      && xs[k - 1] + 1 <= i <= xs[k - 1] + 3 && ys[k - 1] + 1 <= j <= ys[k - 1] + 3
      && PixelAfter(xs, ys, false, masks, k, i, j) == 127
  {
    MaskHasSetBit(masks[k - 1]);
    var p :| 0 <= p < 9 && Bit(masks[k - 1], p) == 1;
    var i, j := xs[k - 1] + 1 + p / 3, ys[k - 1] + 1 + p % 3;
    assert 3 * (i - xs[k - 1] - 1) + (j - ys[k - 1] - 1) == p;
    assert PixelAfter(xs, ys, false, masks, k, i, j) == 127;
  }

  /**
   * What draw produces from a point cloud: the rescaled points stamped into a
   * zero grid, or None when the source raises (a scrub error, an empty cloud,
   * or a write outside the grid).
   */
  function Render(xs: seq<Coord>, ys: seq<Coord>, imageX: nat, imageY: nat, drawPoint: bool,
                  masks: seq<int>, padX: int, padY: int): (r: Option<seq<seq<int>>>)
    requires |xs| == |ys| && (!drawPoint ==> |xs| <= |masks|)
    ensures r.Some? ==> |r.value| == imageX && forall i :: 0 <= i < imageX ==> |r.value[i]| == imageY
  {
    match RescaleSpec(xs, ys, imageX, imageY, padX, padY)
    case None => None
    case Some((px, py)) =>
      if Fits(px, py, drawPoint, imageX, imageY) then Some(Canvas(px, py, drawPoint, masks, imageX, imageY))
      else None
  }

  /** Number of non-zero cells of a grid (numpy's count_nonzero). */
  function NonZero(g: seq<seq<int>>): nat
  {
    if |g| == 0 then 0 else NonZero(g[..|g| - 1]) + NonZeroRow(g[|g| - 1])
  }

  function NonZeroRow(row: seq<int>): nat
  {
    if |row| == 0 then 0 else NonZeroRow(row[..|row| - 1]) + (if row[|row| - 1] != 0 then 1 else 0)
  }
}
