/**
 * The ImageGenerator: it sizes the dataset, searches one random affine
 * system per category until its render is dense enough, expands the
 * categories and weight rows into one entry per image, splits the entries
 * into worker batches and renders every image under its zero-padded index.
 */
module ImageGeneration {
  import opened Numeric
  import opened IfsSpec
  import opened Ifs
  import opened Planning

  /** The share of lit pixels a category's render needs to be accepted. */
  const Threshold: real := 0.2

  /** The number of iterations of every dataset image's orbit. */
  const Iterations: nat := 200000

  /** The side of the square render a category search judges. */
  const BaseSize: nat := 512

  /** The constant added to a category's probability total before normalising. */
  const Eps: real := 0.00001

  /** The padding draw leaves on each side of the image. */
  const Pad: nat := 6

  /** A grid of pixel values, row by row. */
  type Image = seq<seq<int>>

  // ---------------------------------------------------------------------
  // Category tables
  // ---------------------------------------------------------------------

  /** The six coefficients a, b, c, d, e, f of one drawn map. */
  type Map6 = f: Coefficients | |f| == 6 witness [0.0, 0.0, 0.0, 0.0, 0.0, 0.0]

  /** |a*d - b*c|, the area factor of a map, used as its unnormalised probability. */
  function Determinant(f: Map6): (r: real)
    ensures r >= 0.0
  {
    Abs(f[0] * f[3] - f[1] * f[2])
  }

  /** The determinants of a list of maps. */
  function Determinants(coeffs: seq<Map6>): (r: seq<real>)
    ensures |r| == |coeffs|
    ensures forall i :: 0 <= i < |r| ==> r[i] == Determinant(coeffs[i]) && r[i] >= 0.0
  {
    seq(|coeffs|, i requires 0 <= i < |coeffs| => Determinant(coeffs[i]))
  }

  /**
   * The table a category search builds from its maps: each row is a map's
   * six coefficients followed by its determinant divided by eps plus the
   * sum of all determinants.
   */
  function CategoryTable(eps: real, coeffs: seq<Map6>): (table: ParamTable)
    requires eps > 0.0
    ensures |table| == |coeffs|
    ensures forall i :: 0 <= i < |table| ==> table[i][..6] == coeffs[i]
    ensures Sum(Determinants(coeffs)) >= 0.0
    ensures forall i :: 0 <= i < |table| ==>
      table[i][6] == Determinant(coeffs[i]) / (eps + Sum(Determinants(coeffs)))
  {
    var dets := Determinants(coeffs);
    SumNonNegative(dets);
    var total := eps + Sum(dets);
    seq(|coeffs|, i requires 0 <= i < |coeffs| => coeffs[i] + [dets[i] / total])
  }

  /** The probability column of a table. */
  function Probas(table: ParamTable): (r: seq<real>)
    ensures |r| == |table| && forall i :: 0 <= i < |r| ==> r[i] == table[i][6]
  {
    seq(|table|, i requires 0 <= i < |table| => table[i][6])
  }

  /**
   * The probabilities of a category table are non-negative and sum to
   * S / (eps + S), where S is the sum of the determinants: always below 1,
   * so a random value close to 1 selects no map.
   */
  lemma CategoryProbabilities(eps: real, coeffs: seq<Map6>)
    requires eps > 0.0
    ensures var p := Probas(CategoryTable(eps, coeffs));
      var s := Sum(Determinants(coeffs));
      && s >= 0.0
      && (forall i :: 0 <= i < |p| ==> p[i] >= 0.0)
      && Sum(p) == s / (eps + s)
      && 0.0 <= Sum(p) < 1.0
  {
    var dets := Determinants(coeffs);
    SumNonNegative(dets);
    var s := Sum(dets);
    var p := Probas(CategoryTable(eps, coeffs));
    assert forall i :: 0 <= i < |p| ==> p[i] == dets[i] / (eps + s);
    SumScaled(dets, p, eps + s);
    assert 0.0 <= s / (eps + s) < 1.0 by {
      FractionBelowOne(s, eps + s);
    }
  }

  /** A non-negative number divided by a strictly larger one lies in [0, 1). */
  lemma FractionBelowOne(s: real, d: real)
    requires 0.0 <= s < d
    ensures 0.0 <= s / d < 1.0
  {
  }

  // ---------------------------------------------------------------------
  // One render (_generator)
  // ---------------------------------------------------------------------

  /** The maps a table sets up: its first six columns, scaled by the weight row if any. */
  function Maps(table: ParamTable, weight: Option<WeightRow>): (fs: seq<Coefficients>)
    ensures |fs| == |table|
    ensures forall i :: 0 <= i < |fs| ==> fs[i] == Weighted(table[i][..6], weight) && |fs[i]| == 6
  {
    seq(|table|, i requires 0 <= i < |table| => Weighted(table[i][..6], weight))
  }

  /** What the draws a render needs must satisfy: one mask per cloud point in patch mode, each in [1, 511]. */
  predicate MasksFor(rand: seq<real>, drawPoint: bool, masks: seq<int>)
  {
    && (!drawPoint ==> |rand| + 1 <= |masks|)
    && forall k :: 0 <= k < |masks| ==> 1 <= masks[k] <= 511
  }

  /** The cloud of a render: the start point (0, 0) followed by the orbit. */
  function CloudXs(table: ParamTable, weight: Option<WeightRow>, rand: seq<real>): (r: seq<Coord>)
    ensures |r| == |rand| + 1 && NoNaN(r) && r[0] == Num(0.0)
  {
    [Num(0.0)] + OrbitXs(Maps(table, weight), Ladder(Probas(table)), rand)
  }

  function CloudYs(table: ParamTable, weight: Option<WeightRow>, rand: seq<real>): (r: seq<Coord>)
    ensures |r| == |rand| + 1 && NoNaN(r) && r[0] == Num(0.0)
  {
    [Num(0.0)] + OrbitYs(Maps(table, weight), Ladder(Probas(table)), rand)
  }

  /**
   * The image _generator returns for a table: an IFS started at (0, 0), one
   * map per row, iterated once per random draw and drawn into a
   * height x width grid with padding 6. None is an exception of the source.
   */
  function GeneratorSpec(table: ParamTable, weight: Option<WeightRow>, rand: seq<real>,
                         height: nat, width: nat, drawPoint: bool, masks: seq<int>): (r: Option<Image>)
    requires MasksFor(rand, drawPoint, masks)
    ensures r.Some? ==> |r.value| == height && forall i :: 0 <= i < height ==> |r.value[i]| == width
  {
    Render(CloudXs(table, weight, rand), CloudYs(table, weight, rand), height, width, drawPoint, masks, Pad, Pad)
  }

  /**
   * A rescaled axis that contains 0 stays inside a dimension of at least 12
   * with room for a 3x3 patch: every coordinate c has 0 <= c and c + 3 < dim.
   */
  lemma AxisFits(v: seq<real>, dim: nat)
    requires |v| > 0 && v[0] == 0.0
    requires 2 * Pad <= dim && dim - Pad < 65536
    ensures forall k :: 0 <= k < |v| ==> 0 <= RescaleAxis(v, dim, Pad)[k] && RescaleAxis(v, dim, Pad)[k] + 3 < dim
  {
    assert MinOf(v) <= v[0];
    RescaleAxisBounds(v, dim, Pad);
  }

  /**
   * A render of a generated cloud never fails once each side is at least 12
   * pixels and fits uint16: the cloud has no NaN, holds the origin, and
   * rescaling keeps every point, and every 3x3 patch, inside the grid.
   */
  lemma GeneratorRenders(table: ParamTable, weight: Option<WeightRow>, rand: seq<real>,
                         height: nat, width: nat, drawPoint: bool, masks: seq<int>)
    requires MasksFor(rand, drawPoint, masks)
    requires 2 * Pad <= height && height - Pad < 65536
    requires 2 * Pad <= width && width - Pad < 65536
    ensures GeneratorSpec(table, weight, rand, height, width, drawPoint, masks).Some?
  {
    var xs, ys := CloudXs(table, weight, rand), CloudYs(table, weight, rand);
    var vx, vy := Values(xs), Values(ys);
    AxisFits(vx, height);
    AxisFits(vy, width);
    var px, py := RescaleAxis(vx, height, Pad), RescaleAxis(vy, width, Pad);
    assert RescaleSpec(xs, ys, height, width, Pad, Pad) == Some((px, py));
    assert Fits(px, py, drawPoint, height, width);
  }

  // ---------------------------------------------------------------------
  // Category search (_generate_category)
  // ---------------------------------------------------------------------

  /** One try of a category search: the coefficients drawn for its maps, and the draws of its render. */
  datatype Attempt = Attempt(coeffs: seq<Map6>, rand: seq<real>)

  /** A try as the source draws it: 2 to 7 maps of six coefficients, and one draw per iteration. */
  predicate AttemptShaped(a: Attempt, iterations: nat)
  {
    && 2 <= |a.coeffs| <= 7
    && |a.rand| == iterations
  }

  /** Whether at least the threshold share of a height x width grid is lit. */
  predicate Dense(g: Image, height: nat, width: nat)
    requires height * width > 0
  {
    !((NonZero(g) as real) / ((height * width) as real) < Threshold)
  }

  /**
   * Whether a try's table renders, as points on a 512 x 512 grid, densely
   * enough. A failed render would count as a rejection, but at 512 x 512 the
   * render never fails (GeneratorRenders), so the search never meets one.
   */
  predicate Accepted(eps: real, a: Attempt)
    requires eps > 0.0
  {
    var g := GeneratorSpec(CategoryTable(eps, a.coeffs), None, a.rand, BaseSize, BaseSize, true, []);
    g.Some? && Dense(g.value, BaseSize, BaseSize)
  }

  /** A predicate applied to each element in order. */
  function Tabulate<T>(p: T --> bool, s: seq<T>): (v: seq<bool>)
    requires forall k :: 0 <= k < |s| ==> p.requires(s[k])
    ensures |v| == |s|
  {
    if |s| == 0 then [] else Tabulate(p, s[..|s| - 1]) + [p(s[|s| - 1])]
  }

  lemma {:induction false} TabulateAt<T>(p: T --> bool, s: seq<T>, k: nat)
    requires forall k :: 0 <= k < |s| ==> p.requires(s[k])
    requires k < |s|
    ensures Tabulate(p, s)[k] == p(s[k])
  {
    if k < |s| - 1 {
      TabulateAt(p, s[..|s| - 1], k);
    }
  }

  /** Whether each try is accepted, in order. */
  function Verdicts(eps: real, attempts: seq<Attempt>): (v: seq<bool>)
    requires eps > 0.0
    ensures |v| == |attempts|
  {
    Tabulate(a requires eps > 0.0 => Accepted(eps, a), attempts)
  }

  /** The t-th verdict is whether the t-th try is accepted. */
  lemma VerdictAt(eps: real, attempts: seq<Attempt>, t: nat)
    requires eps > 0.0 && t < |attempts|
    ensures Verdicts(eps, attempts)[t] == Accepted(eps, attempts[t])
  {
    TabulateAt(a requires eps > 0.0 => Accepted(eps, a), attempts, t);
  }

  /**
   * v lists each try's verdict. The verdict of a try is only looked at
   * where that try's acceptance is already under discussion.
   */
  ghost predicate IsVerdicts(eps: real, attempts: seq<Attempt>, v: seq<bool>)
    requires eps > 0.0
  {
    && |v| == |attempts|
    && forall t {:trigger Accepted(eps, attempts[t])} :: 0 <= t < |attempts| ==> v[t] == Accepted(eps, attempts[t])
  }

  /** The verdict list is the only list of the tries' verdicts. */
  lemma VerdictsUnique(eps: real, attempts: seq<Attempt>, v: seq<bool>)
    requires eps > 0.0
    ensures IsVerdicts(eps, attempts, v) <==> v == Verdicts(eps, attempts)
  {
    var w := Verdicts(eps, attempts);
    forall t | 0 <= t < |attempts| ensures w[t] == Accepted(eps, attempts[t]) {
      VerdictAt(eps, attempts, t);
    }
    if IsVerdicts(eps, attempts, v) {
      assert forall t :: 0 <= t < |attempts| ==> v[t] == w[t];
    }
  }

  /** The first position at or after `from` holding true, or the length when there is none. */
  function FirstTrue(bs: seq<bool>, from: nat): (r: nat)
    requires from <= |bs|
    ensures from <= r <= |bs|
    ensures r < |bs| ==> bs[r]
    ensures forall t :: from <= t < r ==> !bs[t]
    decreases |bs| - from
  {
    if from == |bs| || bs[from] then from else FirstTrue(bs, from + 1)
  }

  /** The position of the first accepted try, or the number of tries when none is accepted. */
  function FirstAccepted(eps: real, attempts: seq<Attempt>): (r: nat)
    requires eps > 0.0
    ensures r <= |attempts|
    ensures r < |attempts| ==> Accepted(eps, attempts[r])
    ensures forall t :: 0 <= t < r ==> !Accepted(eps, attempts[t])
  {
    var v := Verdicts(eps, attempts);
    var r := FirstTrue(v, 0);
    assert forall t :: 0 <= t < |attempts| ==> v[t] == Accepted(eps, attempts[t]) by {
      forall t | 0 <= t < |attempts| {
        VerdictAt(eps, attempts, t);
      }
    }
    r
  }

  /** What a category search returns for its tries: the table of the first accepted one. */
  function SearchSpec(eps: real, attempts: seq<Attempt>): (r: Option<ParamTable>)
    requires eps > 0.0
  {
    var k := FirstAccepted(eps, attempts);
    if k < |attempts| then Some(CategoryTable(eps, attempts[k].coeffs)) else None
  }

  /**
   * An accepted table has 2 to 7 rows of seven entries whose probabilities
   * are non-negative and sum to less than 1, and its point render on the
   * 512 x 512 grid lights at least a fifth of the pixels.
   */
  lemma SearchResult(eps: real, attempts: seq<Attempt>)
    requires eps > 0.0
    requires forall t :: 0 <= t < |attempts| ==> 2 <= |attempts[t].coeffs| <= 7
    ensures var r := SearchSpec(eps, attempts);
      r.Some? ==>
        && 2 <= |r.value| <= 7
        && (forall i :: 0 <= i < |r.value| ==> r.value[i][6] >= 0.0)
        && Sum(Probas(r.value)) < 1.0
        && NonZero(GeneratorSpec(r.value, None, attempts[FirstAccepted(eps, attempts)].rand,
                                 BaseSize, BaseSize, true, []).value) as real >= Threshold * (BaseSize * BaseSize) as real
  {
    var k := FirstAccepted(eps, attempts);
    if k < |attempts| {
      CategoryProbabilities(eps, attempts[k].coeffs);
      var g := GeneratorSpec(CategoryTable(eps, attempts[k].coeffs), None, attempts[k].rand, BaseSize, BaseSize, true, []);
      DenseShare(NonZero(g.value), BaseSize * BaseSize);
    }
  }

  /** A share n / d not below the threshold means n is at least threshold times d. */
  lemma DenseShare(n: nat, d: nat)
    requires d > 0 && !((n as real) / (d as real) < Threshold)
    ensures n as real >= Threshold * d as real
  {
  }

  // ---------------------------------------------------------------------
  // Writing outputs
  // ---------------------------------------------------------------------

  /** The output directory after writing each (file name, image) pair in order. */
  function WriteAll(files: map<string, Image>, outs: seq<(string, Image)>): map<string, Image>
  {
    if |outs| == 0 then files
    else WriteAll(files, outs[..|outs| - 1])[outs[|outs| - 1].0 := outs[|outs| - 1].1]
  }

  /** Writing one more file on top of a run. */
  lemma WriteAllSnoc(files: map<string, Image>, outs: seq<(string, Image)>, name: string, image: Image)
    ensures WriteAll(files, outs + [(name, image)]) == WriteAll(files, outs)[name := image]
  {
    assert (outs + [(name, image)])[..|outs|] == outs;
  }

  /** Writing two runs of files one after the other is writing their concatenation. */
  lemma {:induction false} WriteAllAppend(files: map<string, Image>, a: seq<(string, Image)>, b: seq<(string, Image)>)
    ensures WriteAll(WriteAll(files, a), b) == WriteAll(files, a + b)
    decreases |b|
  {
    if |b| == 0 {
      assert a + b == a;
    } else {
      WriteAllAppend(files, a, b[..|b| - 1]);
      assert (a + b)[..|a + b| - 1] == a + b[..|b| - 1];
    }
  }

  /** After writing a run of files, the directory holds exactly the old names and the written ones. */
  lemma {:induction false} WriteAllKeys(files: map<string, Image>, outs: seq<(string, Image)>)
    ensures WriteAll(files, outs).Keys == files.Keys + set k | 0 <= k < |outs| :: outs[k].0
  {
    if |outs| > 0 {
      var n := |outs| - 1;
      var front := outs[..n];
      WriteAllKeys(files, front);
      var names, frontNames := set k | 0 <= k < |outs| :: outs[k].0, set k | 0 <= k < n :: front[k].0;
      assert names == frontNames + {outs[n].0} by {
        forall k | 0 <= k < n ensures front[k].0 in names {
          assert front[k] == outs[k];
        }
      }
    }
  }

  /** When the written names are distinct, each written name holds its own image. */
  lemma {:induction false} WriteAllValues(files: map<string, Image>, outs: seq<(string, Image)>)
    requires forall i, j :: 0 <= i < j < |outs| ==> outs[i].0 != outs[j].0
    ensures forall k :: 0 <= k < |outs| ==> outs[k].0 in WriteAll(files, outs) && WriteAll(files, outs)[outs[k].0] == outs[k].1
  {
    if |outs| > 0 {
      var n := |outs| - 1;
      var front := outs[..n];
      WriteAllValues(files, front);
      var m := WriteAll(files, outs);
      assert m == WriteAll(files, front)[outs[n].0 := outs[n].1];
      forall k | 0 <= k < n ensures outs[k].0 in m && m[outs[k].0] == outs[k].1 {
        assert front[k] == outs[k] && outs[k].0 != outs[n].0;
      }
    }
  }

  // ---------------------------------------------------------------------
  // The generator object
  // ---------------------------------------------------------------------

  class ImageGenerator {
    /** The number of images to produce. */
    var count: nat
    /** The size of every dataset image. */
    var height: nat
    var width: nat
    /** The number of worker processes: the machine's CPU count, capped at count. */
    var cpuCount: nat
    /** The weight catalogue, cut to its first count rows for small datasets. */
    var weights: seq<WeightRow>
    /** The iterations of a category search render; 0 until sized. */
    var numOfPoints: nat
    /** Images per weight row and per category, and the number of categories; 0 until sized. */
    var instances: nat
    var categories: nat
    /** The output directory: each file name with the grayscale fractal rendered for it. */
    var files: map<string, Image>

    /** A generator for `count` images of height x width on a machine with `cpus` CPUs. */
    constructor (count: nat, height: nat, width: nat, cpus: nat)
      ensures this.count == count && this.height == height && this.width == width
      ensures cpuCount == MinNat(cpus, count) && weights == BaseWeights
      ensures numOfPoints == 0 && instances == 0 && categories == 0 && files == map[]
    {
      this.count, this.height, this.width := count, height, width;
      cpuCount := MinNat(cpus, count);
      weights := BaseWeights;
      numOfPoints, instances, categories := 0, 0, 0;
      files := map[];
    }

    /**
     * Size the run: the search budget from the image area, and instances and
     * categories from the count and the catalogue length; a count below the
     * catalogue length keeps only its first count rows.
     */
    method InitializeParams()
      requires |weights| > 0
      modifies this
      ensures var p := SizingRule(count, |old(weights)|);
        && numOfPoints == PointBudget(height, width)
        && instances == p.instances && categories == p.categories
        && weights == old(weights)[..p.rows]
      ensures count == old(count) && height == old(height) && width == old(width)
      ensures cpuCount == old(cpuCount) && files == old(files)
    {
      var defaultImgSize := DefaultImageSize;
      var pointsCoeff := RoundHalfEven(height * width, defaultImgSize);
      if pointsCoeff < 1 {
        pointsCoeff := 1;
      }
      numOfPoints := PointsPerBudget * pointsCoeff;
      if count < |weights| {
        instances, categories := 1, 1;
        weights := weights[..count];
      } else {
        instances := CeilDiv(count, 4 * |weights|);
        categories := CeilDiv(count, instances * |weights|);
      }
    }

    /**
     * Build an IFS from a table (each row's first six entries, scaled by the
     * weight row when given, with the row's last entry as its probability),
     * iterate it `iterations` times and draw it.
     */
    static method Generator(params: ParamTable, iterations: nat, height: nat, width: nat, drawPoint: bool,
                            weight: Option<WeightRow>, rand: seq<real>, masks: seq<int>)
      returns (image: array2<int>, ok: bool)
      requires |rand| == iterations && MasksFor(rand, drawPoint, masks)
      ensures var r := GeneratorSpec(params, weight, rand, height, width, drawPoint, masks);
        ok == r.Some? && (ok ==> Grid(image) == r.value)
    {
      var ifs := SetUp(params, weight);
      ifs.Calculate(iterations, rand);
      image, ok := ifs.Draw(height, width, drawPoint, masks, Pad, Pad);
    }

    /**
     * The search for one category: tries are made in order, each building a
     * table from its maps and rendering it as points on a 512 x 512 grid,
     * until one lights at least the threshold share of the pixels. Returns
     * that table and its position, or None and the number of tries when
     * every try is rejected.
     */
    method GenerateCategory(eps: real, attempts: seq<Attempt>) returns (params: Option<ParamTable>, used: nat)
      requires eps > 0.0
      requires forall t :: 0 <= t < |attempts| ==> AttemptShaped(attempts[t], numOfPoints)
      ensures used == FirstAccepted(eps, attempts)
      ensures params == SearchSpec(eps, attempts)
    {
      assert exists v :: IsVerdicts(eps, attempts, v) by {
        VerdictsUnique(eps, attempts, Verdicts(eps, attempts));
      }
      ghost var verdicts :| IsVerdicts(eps, attempts, verdicts);
      var table, pixels, t := SearchLoop(eps, attempts, numOfPoints, verdicts);
      if pixels < Threshold {
        params, used := None, |attempts|;
      } else {
        params, used := Some(table), t - 1;
      }
      SearchConclusion(eps, attempts, verdicts, used);
    }

    /**
     * The category searches of generate_dataset, one per category in order
     * (worker processes taken one after the other). Stops at the first
     * search that finds nothing and reports it.
     */
    method SearchCategories(searches: seq<seq<Attempt>>) returns (tables: Option<seq<ParamTable>>, failed: nat)
      requires SearchesShaped(searches, numOfPoints)
      ensures tables == Tables(Eps, searches, categories)
      ensures tables.Some? ==> |tables.value| == categories
      ensures tables.None? ==>
        && failed < categories
        && SearchSpec(Eps, SearchInput(searches, failed)).None?
        && forall c :: 0 <= c < failed ==> SearchSpec(Eps, SearchInput(searches, c)).Some?
    {
      assert exists rs :: IsSearchResults(Eps, searches, categories, rs) by {
        SearchResultsUnique(Eps, searches, categories, SearchResults(Eps, searches, categories));
      }
      ghost var results: seq<Option<ParamTable>> :| IsSearchResults(Eps, searches, categories, results);
      var found: seq<ParamTable> := [];
      var c := 0;
      while c < categories
        invariant 0 <= c <= categories
        invariant Collect(results[..c]) == Some(found) && |found| == c
        invariant forall k :: 0 <= k < c ==> results[k].Some?
      {
        var params := SearchOne(searches, c, results);
        assert results[..c + 1][..c] == results[..c];
        if params.None? {
          CollectAll(results);
          TablesCollect(Eps, searches, categories, results);
          return None, c;
        }
        found := found + [params.value];
        c := c + 1;
      }
      assert results[..c] == results;
      TablesCollect(Eps, searches, categories, results);
      tables, failed := Some(found), 0;
    }

    /**
     * generate_dataset: size the dataset, search one table per category,
     * spread the per-image stream over the workers in contiguous batches
     * with consecutive indices, and render and save every batch. The pool of
     * workers is taken one batch after the other.
     */
    method GenerateDataset(searches: seq<seq<Attempt>>, draws: seq<ImageDraw>) returns (outcome: Outcome)
      requires |weights| > 0 && cpuCount <= count
      requires SearchesShaped(searches, PointBudget(height, width))
      requires |draws| >= count && forall j :: 0 <= j < count ==> DrawShaped(draws[j])
      modifies this
      ensures var p := SizingRule(count, |old(weights)|);
        && numOfPoints == PointBudget(height, width)
        && instances == p.instances && categories == p.categories
        && weights == old(weights)[..p.rows]
      ensures count == old(count) && height == old(height) && width == old(width) && cpuCount == old(cpuCount)
      ensures outcome.NoWorkers? <==> cpuCount == 0
      ensures outcome.NoWorkers? || outcome.SearchExhausted? ==> files == old(files)
      ensures cpuCount > 0 ==> (outcome.SearchExhausted? <==> Tables(Eps, searches, categories).None?)
      ensures outcome.SearchExhausted? ==>
        && outcome.category < categories
        && SearchSpec(Eps, SearchInput(searches, outcome.category)).None?
        && forall c :: 0 <= c < outcome.category ==> SearchSpec(Eps, SearchInput(searches, c)).Some?
      ensures outcome.Done? || outcome.RenderFailed? ==>
        && Tables(Eps, searches, categories).Some?
        && PerImage(Tables(Eps, searches, categories).value, weights, instances, categories, count).Some?
        && var jobs := DatasetJobs(Tables(Eps, searches, categories).value, weights, instances, categories, count);
        && var run := RunOf(jobs, JobImages(jobs, draws, height, width));
        && (outcome.Done? <==> run.complete)
        && files == WriteAll(old(files), run.outs)
    {
      InitializeParams();
      if cpuCount == 0 {
        return NoWorkers;
      }
      var tables, failed := SearchCategories(searches);
      if tables.None? {
        return SearchExhausted(failed);
      }
      SizedStreamIsExact(count, old(weights), tables.value);
      var ok := RunBatches(tables.value, draws);
      outcome := if ok then Done else RenderFailed;
    }

    /**
     * The batch half of generate_dataset: the stream of the tables and the
     * weight rows is split into min(cpuCount, count) contiguous batches,
     * batch b given the indices after those of batches 0..b-1, and the
     * batches rendered in order. ok is false when a render raises, and the
     * run stops there.
     */
    method RunBatches(tables: seq<ParamTable>, draws: seq<ImageDraw>) returns (ok: bool)
      requires 0 < cpuCount <= count
      requires PerImage(tables, weights, instances, categories, count).Some?
      requires |draws| >= count && forall j :: 0 <= j < count ==> DrawShaped(draws[j])
      modifies this`files
      ensures var jobs := DatasetJobs(tables, weights, instances, categories, count);
        var run := RunOf(jobs, JobImages(jobs, draws, height, width));
        ok == run.complete && files == WriteAll(old(files), run.outs)
    {
      var stream := PerImage(tables, weights, instances, categories, count).value;
      var h, w := height, width;
      var splits := MinNat(cpuCount, count);
      var paramsPerProc := ArraySplit(stream.params, splits);
      var weightsPerProc := ArraySplit(stream.weights, splits);
      var indices := AssignIndices(paramsPerProc);
      ghost var jobs := DatasetJobs(tables, weights, instances, categories, count);
      assert JobsDrawn(jobs, draws);
      assert exists im :: IsImages(jobs, draws, h, w, im) by {
        ImagesUnique(jobs, draws, h, w, JobImages(jobs, draws, h, w));
      }
      ghost var images: seq<Option<Image>> :| IsImages(jobs, draws, h, w, images);
      ok := RunSplit(stream, splits, paramsPerProc, weightsPerProc, indices, draws, jobs, images);
      RunOfImages(jobs, draws, h, w, images);
    }

    /** The batch loop: the batches of the split stream rendered in order. */
    method RunSplit(stream: Stream, splits: nat, paramsPerProc: seq<seq<ParamTable>>,
                    weightsPerProc: seq<seq<WeightRow>>, indices: seq<seq<nat>>, draws: seq<ImageDraw>,
                    ghost jobs: seq<Job>, ghost images: seq<Option<Image>>)
      returns (ok: bool)
      requires 0 < splits && |stream.params| == |stream.weights|
      requires paramsPerProc == ArraySplit(stream.params, splits)
      requires weightsPerProc == ArraySplit(stream.weights, splits)
      requires |indices| == splits
      requires forall b :: 0 <= b < splits ==> indices[b] == IndexRange(SumLens(paramsPerProc[..b]), |paramsPerProc[b]|)
      requires jobs == Jobs(stream.params, stream.weights, IndexRange(0, |stream.params|))
      requires JobsDrawn(jobs, draws) && IsImages(jobs, draws, height, width, images)
      modifies this`files
      ensures ok == RunOf(jobs, images).complete && files == WriteAll(old(files), RunOf(jobs, images).outs)
    {
      var total := |stream.params|;
      ghost var outs: seq<(string, Image)> := [];
      var offset := 0;
      var b := 0;
      while b < splits
        invariant 0 <= b <= splits
        invariant offset == Boundary(total, splits, b) <= total
        invariant RunOf(jobs[..offset], images[..offset]) == Run(outs, true)
        invariant files == WriteAll(old(files), outs)
      {
        ghost var saved;
        var hi, batchOk;
        hi, batchOk, saved := RunBatch(stream, splits, paramsPerProc, weightsPerProc, indices, b, offset,
                                       draws, jobs, images, outs);
        WriteAllAppend(old(files), outs, saved);
        if !batchOk {
          RunOfStopped(jobs, images, hi);
          return false;
        }
        outs := outs + saved;
        offset := hi;
        b := b + 1;
      }
      BoundaryEnd(total, splits);
      assert jobs[..offset] == jobs && images[..offset] == images;
      ok := true;
    }

    /**
     * Batch b of the split stream, rendered and saved on top of the run of
     * the batches before it; saved holds the files it writes.
     */
    method RunBatch(stream: Stream, splits: nat, paramsPerProc: seq<seq<ParamTable>>,
                    weightsPerProc: seq<seq<WeightRow>>, indices: seq<seq<nat>>, b: nat, offset: nat,
                    draws: seq<ImageDraw>, ghost jobs: seq<Job>, ghost images: seq<Option<Image>>,
                    ghost outs: seq<(string, Image)>)
      returns (hi: nat, batchOk: bool, ghost saved: seq<(string, Image)>)
      requires 0 <= b < splits && |stream.params| == |stream.weights|
      requires paramsPerProc == ArraySplit(stream.params, splits)
      requires weightsPerProc == ArraySplit(stream.weights, splits)
      requires |indices| == splits && indices[b] == IndexRange(SumLens(paramsPerProc[..b]), |paramsPerProc[b]|)
      requires offset == Boundary(|stream.params|, splits, b) <= |stream.params|
      requires jobs == Jobs(stream.params, stream.weights, IndexRange(0, |stream.params|))
      requires JobsDrawn(jobs, draws) && IsImages(jobs, draws, height, width, images)
      requires RunOf(jobs[..offset], images[..offset]) == Run(outs, true)
      modifies this`files
      ensures hi == Boundary(|stream.params|, splits, b + 1) && offset <= hi <= |stream.params|
      ensures RunOf(jobs[..hi], images[..hi]) == Run(outs + saved, batchOk)
      ensures files == WriteAll(old(files), saved)
    {
      hi := offset + |paramsPerProc[b]|;
      BatchJobs(stream.params, stream.weights, splits, b);
      SplitOffset(stream.params, splits, b);
      ghost var batchJobs := Jobs(paramsPerProc[b], weightsPerProc[b], indices[b]);
      assert batchJobs == jobs[offset..hi];
      IsImagesSlice(jobs, draws, height, width, images, offset, hi);
      batchOk := GenerateImageBatch(paramsPerProc[b], weightsPerProc[b], indices[b], draws, images[offset..hi]);
      saved := RunOf(batchJobs, images[offset..hi]).outs;
      RunOfAppend(jobs[..offset], images[..offset], batchJobs, images[offset..hi]);
      SliceJoin(jobs, offset, hi);
      SliceJoin(images, offset, hi);
    }

    /** The search of category c, as one worker of the pool runs it. */
    method SearchOne(searches: seq<seq<Attempt>>, c: nat, ghost results: seq<Option<ParamTable>>)
      returns (params: Option<ParamTable>)
      requires SearchesShaped(searches, numOfPoints) && c < |results|
      requires IsSearchResults(Eps, searches, |results|, results)
      ensures params == results[c]
    {
      var params', used := GenerateCategory(Eps, SearchInput(searches, c));
      params := params';
    }

    /**
     * Render and save one batch of images: image k of the batch is drawn
     * from its table and weight row and saved as FileName(indices[k]). ok is
     * false when a render raises, and the batch stops there.
     */
    method GenerateImageBatch(params: seq<ParamTable>, weights: seq<WeightRow>, indices: seq<nat>,
                              draws: seq<ImageDraw>, ghost images: seq<Option<Image>>)
      returns (ok: bool)
      requires |params| == |weights| == |indices|
      requires JobsDrawn(Jobs(params, weights, indices), draws)
      requires IsImages(Jobs(params, weights, indices), draws, height, width, images)
      modifies this`files
      ensures var run := RunOf(Jobs(params, weights, indices), images);
        ok == run.complete && files == WriteAll(old(files), run.outs)
    {
      var jobs := Jobs(params, weights, indices);
      ghost var outs: seq<(string, Image)> := [];
      var k := 0;
      while k < |jobs|
        invariant 0 <= k <= |jobs|
        invariant RunOf(jobs[..k], images[..k]) == Run(outs, true)
        invariant files == WriteAll(old(files), outs)
      {
        var image, rendered := RenderJob(jobs, k, draws, height, width, images);
        RunOfSnoc(jobs, images, k);
        if !rendered {
          RunOfStopped(jobs, images, k + 1);
          return false;
        }
        var name := FileName(indices[k]);
        WriteAllSnoc(old(files), outs, name, Grid(image));
        files := files[name := Grid(image)];
        outs := outs + [(name, Grid(image))];
        k := k + 1;
      }
      assert jobs[..k] == jobs && images[..k] == images;
      ok := true;
    }
  }

  /**
   * The loop of _generate_category: tries in order until one is accepted
   * (pixels reaches the threshold) or the tries run out.
   */
  method SearchLoop(eps: real, attempts: seq<Attempt>, iterations: nat, ghost verdicts: seq<bool>)
    returns (table: ParamTable, pixels: real, t: nat)
    requires eps > 0.0 && IsVerdicts(eps, attempts, verdicts)
    requires forall t :: 0 <= t < |attempts| ==> AttemptShaped(attempts[t], iterations)
    ensures t <= |attempts|
    ensures pixels < Threshold ==> t == |attempts| && forall s :: 0 <= s < t ==> !verdicts[s]
    ensures !(pixels < Threshold) ==>
      && 0 < t && verdicts[t - 1] && table == CategoryTable(eps, attempts[t - 1].coeffs)
      && forall s :: 0 <= s < t - 1 ==> !verdicts[s]
  {
    pixels := -1.0;
    table := [];
    t := 0;
    while pixels < Threshold && t < |attempts|
      invariant 0 <= t <= |attempts|
      invariant pixels < Threshold ==> forall s :: 0 <= s < t ==> !verdicts[s]
      invariant !(pixels < Threshold) ==>
        && 0 < t && verdicts[t - 1] && table == CategoryTable(eps, attempts[t - 1].coeffs)
        && forall s :: 0 <= s < t - 1 ==> !verdicts[s]
      decreases |attempts| - t
    {
      table, pixels := TryAttempt(eps, attempts, t, iterations, verdicts);
      t := t + 1;
    }
  }

  /** The first true verdict of a verdict list is the first accepted try, and decides the search. */
  lemma SearchConclusion(eps: real, attempts: seq<Attempt>, verdicts: seq<bool>, used: nat)
    requires eps > 0.0 && IsVerdicts(eps, attempts, verdicts) && used <= |attempts|
    requires used < |attempts| ==> verdicts[used]
    requires forall s :: 0 <= s < used ==> !verdicts[s]
    ensures used == FirstAccepted(eps, attempts)
    ensures SearchSpec(eps, attempts) == if used < |attempts| then Some(CategoryTable(eps, attempts[used].coeffs)) else None
  {
    FirstTrueIs(verdicts, used);
    VerdictsUnique(eps, attempts, verdicts);
  }

  /**
   * One pass of the search loop: build the table from the try's maps,
   * render it as points on the 512 x 512 grid and measure the lit share.
   */
  method TryAttempt(eps: real, attempts: seq<Attempt>, t: nat, iterations: nat, ghost verdicts: seq<bool>)
    returns (table: ParamTable, pixels: real)
    requires eps > 0.0 && t < |attempts| && AttemptShaped(attempts[t], iterations)
    requires IsVerdicts(eps, attempts, verdicts)
    ensures table == CategoryTable(eps, attempts[t].coeffs)
    ensures verdicts[t] == !(pixels < Threshold)
  {
    var attempt := attempts[t];
    table := BuildTable(eps, attempt.coeffs);
    GeneratorRenders(table, None, attempt.rand, BaseSize, BaseSize, true, []);
    var image, ok := ImageGenerator.Generator(table, iterations, BaseSize, BaseSize, true, None, attempt.rand, []);
    pixels := (NonZero(Grid(image)) as real) / ((BaseSize * BaseSize) as real);
    assert Accepted(eps, attempts[t]) == !(pixels < Threshold);
  }

  /**
   * The first loop of _generator: a fresh IFS started at (0, 0) given one
   * map per table row, in order.
   */
  method SetUp(params: ParamTable, weight: Option<WeightRow>) returns (ifs: IfsFunction)
    ensures fresh(ifs) && ifs.Valid()
    ensures ifs.functions == Maps(params, weight) && ifs.selectFunction == Ladder(Probas(params))
    ensures ifs.xs == [Num(0.0)] && ifs.ys == [Num(0.0)]
  {
    ifs := new IfsFunction(0.0, 0.0);
    var k := 0;
    while k < |params|
      invariant 0 <= k <= |params|
      invariant fresh(ifs) && ifs.Valid()
      invariant ifs.functions == Maps(params[..k], weight) && ifs.probas == Probas(params[..k])
      invariant ifs.xs == [Num(0.0)] && ifs.ys == [Num(0.0)]
    {
      var param := params[k];
      ifs.SetParam(param[..6], param[6], weight);
      assert params[..k + 1] == params[..k] + [param];
      k := k + 1;
    }
    assert params[..k] == params;
  }

  /** A position is the first true one when everything before it is false and it is true or the end. */
  lemma {:induction false} FirstTrueIs(bs: seq<bool>, r: nat)
    requires r <= |bs| && (r < |bs| ==> bs[r])
    requires forall t :: 0 <= t < r ==> !bs[t]
    ensures FirstTrue(bs, 0) == r
  {
    FirstTrueFrom(bs, 0, r);
  }

  lemma {:induction false} FirstTrueFrom(bs: seq<bool>, from: nat, r: nat)
    requires from <= r <= |bs| && (r < |bs| ==> bs[r])
    requires forall t :: from <= t < r ==> !bs[t]
    ensures FirstTrue(bs, from) == r
    decreases r - from
  {
    if from < r {
      FirstTrueFrom(bs, from + 1, r);
    }
  }

  /**
   * Build a category table as the search loop does: fill the rows, then
   * divide the probability column by eps plus the sum of the determinants.
   */
  method BuildTable(eps: real, coeffs: seq<Map6>) returns (table: ParamTable)
    requires eps > 0.0
    ensures table == CategoryTable(eps, coeffs)
  {
    var params, sumProba := FillRows(eps, coeffs);
    ghost var dets := Determinants(coeffs);
    forall r | 0 <= r < params.Length0 {
      params[r, 6] := params[r, 6] / sumProba;
    }
    ghost var expected := CategoryTable(eps, coeffs);
    forall r, c | 0 <= r < params.Length0 && 0 <= c < 7
      ensures params[r, c] == expected[r][c]
    {
      if c < 6 {
        assert expected[r][..6] == coeffs[r];
      } else {
        assert expected[r][6] == dets[r] / sumProba;
      }
    }
    GridIs(params, expected);
    table := Grid(params);
  }

  /**
   * The row loop: each row holds a map's six coefficients and its
   * determinant, and the running total starts at eps and adds every
   * determinant.
   */
  method FillRows(eps: real, coeffs: seq<Map6>) returns (params: array2<real>, sumProba: real)
    requires eps > 0.0
    ensures fresh(params) && params.Length0 == |coeffs| && params.Length1 == 7
    ensures forall r, c :: 0 <= r < |coeffs| && 0 <= c < 6 ==> params[r, c] == coeffs[r][c]
    ensures forall r :: 0 <= r < |coeffs| ==> params[r, 6] == Determinant(coeffs[r])
    ensures sumProba == eps + Sum(Determinants(coeffs)) && sumProba > 0.0
  {
    var n := |coeffs|;
    params := new real[n, 7]((i, j) => 0.0);
    ghost var dets := Determinants(coeffs);
    sumProba := eps;
    var i := 0;
    while i < n
      invariant 0 <= i <= n
      invariant sumProba == eps + Sum(dets[..i])
      invariant forall r, c :: 0 <= r < i && 0 <= c < 6 ==> params[r, c] == coeffs[r][c]
      invariant forall r :: 0 <= r < i ==> params[r, 6] == dets[r]
    {
      var f := coeffs[i];
      var prob := Determinant(f);
      assert dets[..i + 1][..i] == dets[..i];
      sumProba := sumProba + prob;
      SetRow(params, i, f, prob);
      i := i + 1;
    }
    assert dets[..n] == dets;
    SumNonNegative(dets);
  }

  /** params[i] = a, b, c, d, e, f, prob: one row written, every other cell kept. */
  method SetRow(params: array2<real>, i: nat, f: Map6, prob: real)
    requires i < params.Length0 && params.Length1 == 7
    modifies params
    ensures forall c :: 0 <= c < 6 ==> params[i, c] == f[c]
    ensures params[i, 6] == prob
    ensures forall r, c :: 0 <= r < params.Length0 && 0 <= c < 7 && r != i ==> params[r, c] == old(params[r, c])
  {
    forall c | 0 <= c < 6 {
      params[i, c] := f[c];
    }
    params[i, 6] := prob;
  }

  // ---------------------------------------------------------------------
  // Dataset images (_generate_image_batch and generate_dataset)
  // ---------------------------------------------------------------------

  /** The draws one dataset image consumes: one per iteration, and a 9-bit mask per cloud point. */
  datatype ImageDraw = ImageDraw(rand: seq<real>, masks: seq<int>)

  predicate DrawShaped(d: ImageDraw)
  {
    |d.rand| == Iterations && MasksFor(d.rand, false, d.masks)
  }

  /** One image to produce: the index it is saved under, its category's table and its weight row. */
  datatype Job = Job(index: nat, table: ParamTable, weight: WeightRow)

  /** Every job has its draws, under its own index. */
  predicate JobsDrawn(jobs: seq<Job>, draws: seq<ImageDraw>)
  {
    forall k :: 0 <= k < |jobs| ==> jobs[k].index < |draws| && DrawShaped(draws[jobs[k].index])
  }

  /** The image of one job: its table scaled by its weight row, drawn in patch mode. */
  function JobImage(job: Job, d: ImageDraw, height: nat, width: nat): (r: Option<Image>)
    requires DrawShaped(d)
    ensures r.Some? ==> |r.value| == height
  {
    GeneratorSpec(job.table, Some(job.weight), d.rand, height, width, false, d.masks)
  }

  /** The images of a list of jobs. */
  function JobImages(jobs: seq<Job>, draws: seq<ImageDraw>, height: nat, width: nat): (r: seq<Option<Image>>)
    requires JobsDrawn(jobs, draws)
    ensures |r| == |jobs|
  {
    seq(|jobs|, k requires 0 <= k < |jobs| && JobsDrawn(jobs, draws) => JobImage(jobs[k], draws[jobs[k].index], height, width))
  }

  /**
   * images holds each job's image. A job's image is only looked at where
   * that job's render is already under discussion.
   */
  ghost predicate IsImages(jobs: seq<Job>, draws: seq<ImageDraw>, height: nat, width: nat, images: seq<Option<Image>>)
    requires JobsDrawn(jobs, draws)
  {
    && |images| == |jobs|
    && forall k {:trigger JobImage(jobs[k], draws[jobs[k].index], height, width)} :: 0 <= k < |jobs| ==>
         images[k] == JobImage(jobs[k], draws[jobs[k].index], height, width)
  }

  /** The image list is the only list of the jobs' images. */
  lemma ImagesUnique(jobs: seq<Job>, draws: seq<ImageDraw>, height: nat, width: nat, images: seq<Option<Image>>)
    requires JobsDrawn(jobs, draws)
    ensures IsImages(jobs, draws, height, width, images) <==> images == JobImages(jobs, draws, height, width)
  {
    var expected := JobImages(jobs, draws, height, width);
    if IsImages(jobs, draws, height, width, images) {
      forall k | 0 <= k < |jobs| ensures images[k] == expected[k] {
        assert images[k] == JobImage(jobs[k], draws[jobs[k].index], height, width);
      }
    }
  }

  /** What a run of jobs leaves: the files saved in order, and whether every job got its image. */
  datatype Run = Run(outs: seq<(string, Image)>, complete: bool)

  /**
   * Jobs rendered in order, each saved as FileName(index); the run stops at
   * the first job whose render raises.
   */
  function RunOf(jobs: seq<Job>, images: seq<Option<Image>>): Run
    requires |images| == |jobs|
  {
    if |jobs| == 0 then Run([], true)
    else
      var r := RunOf(jobs[..|jobs| - 1], images[..|jobs| - 1]);
      if !r.complete then r
      else match images[|jobs| - 1]
        case None => Run(r.outs, false)
        case Some(image) => Run(r.outs + [(FileName(jobs[|jobs| - 1].index), image)], true)
  }

  /** A run is complete exactly when no job's render raises. */
  lemma {:induction false} RunOfComplete(jobs: seq<Job>, images: seq<Option<Image>>)
    requires |images| == |jobs|
    ensures RunOf(jobs, images).complete <==> forall k :: 0 <= k < |jobs| ==> images[k].Some?
  {
    if |jobs| > 0 {
      var n := |jobs| - 1;
      var ims := images[..n];
      RunOfComplete(jobs[..n], ims);
      assert forall k :: 0 <= k < n ==> ims[k] == images[k];
    }
  }

  /** A complete run saves exactly one file per job, in order, under the job's index. */
  lemma {:induction false} RunOfOuts(jobs: seq<Job>, images: seq<Option<Image>>)
    requires |images| == |jobs| && RunOf(jobs, images).complete
    ensures var outs := RunOf(jobs, images).outs;
      && |outs| == |jobs|
      && forall k :: 0 <= k < |jobs| ==> images[k].Some? && outs[k] == (FileName(jobs[k].index), images[k].value)
  {
    if |jobs| > 0 {
      var n := |jobs| - 1;
      var js, ims := jobs[..n], images[..n];
      RunOfOuts(js, ims);
      var outs, front := RunOf(jobs, images).outs, RunOf(js, ims).outs;
      assert outs == front + [(FileName(jobs[n].index), images[n].value)];
      forall k | 0 <= k < n
        ensures images[k].Some? && outs[k] == (FileName(jobs[k].index), images[k].value)
      {
        assert js[k] == jobs[k] && ims[k] == images[k] && outs[k] == front[k];
      }
    }
  }

  /** Running two lists of jobs one after the other is running their concatenation. */
  lemma {:induction false} RunOfAppend(a: seq<Job>, ia: seq<Option<Image>>, b: seq<Job>, ib: seq<Option<Image>>)
    requires |ia| == |a| && |ib| == |b|
    ensures var ra, rb := RunOf(a, ia), RunOf(b, ib);
      RunOf(a + b, ia + ib) == if ra.complete then Run(ra.outs + rb.outs, rb.complete) else ra
    decreases |b|
  {
    if |b| == 0 {
      assert a + b == a && ia + ib == ia;
    } else {
      var n := |b| - 1;
      var jobs, images := a + b, ia + ib;
      assert jobs[..|jobs| - 1] == a + b[..n];
      assert images[..|jobs| - 1] == ia + ib[..n];
      assert jobs[|jobs| - 1] == b[n] && images[|jobs| - 1] == ib[n];
      RunOfAppend(a, ia, b[..n], ib[..n]);
    }
  }

  /** A run that stopped at a prefix does not go on. */
  lemma {:induction false} RunOfStopped(jobs: seq<Job>, images: seq<Option<Image>>, k: nat)
    requires |images| == |jobs| && k <= |jobs|
    requires !RunOf(jobs[..k], images[..k]).complete
    ensures RunOf(jobs, images) == RunOf(jobs[..k], images[..k])
    decreases |jobs| - k
  {
    if k < |jobs| {
      var n := |jobs| - 1;
      assert jobs[..n][..k] == jobs[..k] && images[..n][..k] == images[..k];
      RunOfStopped(jobs[..n], images[..n], k);
    } else {
      assert jobs[..k] == jobs && images[..k] == images;
    }
  }

  /** The jobs of one batch: entry k of each list. */
  function Jobs(params: seq<ParamTable>, weights: seq<WeightRow>, indices: seq<nat>): (jobs: seq<Job>)
    requires |params| == |weights| == |indices|
    ensures |jobs| == |params|
    ensures forall k :: 0 <= k < |jobs| ==> jobs[k] == Job(indices[k], params[k], weights[k])
  {
    seq(|params|, k requires 0 <= k < |params| => Job(indices[k], params[k], weights[k]))
  }

  /** One step of a run: the prefix of k + 1 jobs extends the prefix of k. */
  lemma RunOfSnoc(jobs: seq<Job>, images: seq<Option<Image>>, k: nat)
    requires |images| == |jobs| && k < |jobs|
    ensures var r := RunOf(jobs[..k], images[..k]);
      RunOf(jobs[..k + 1], images[..k + 1]) ==
        if !r.complete then r
        else match images[k]
          case None => Run(r.outs, false)
          case Some(image) => Run(r.outs + [(FileName(jobs[k].index), image)], true)
  {
    assert jobs[..k + 1][..k] == jobs[..k] && images[..k + 1][..k] == images[..k];
  }

  /** The consecutive image indices lo, lo + 1, ..., lo + len - 1. */
  function IndexRange(lo: nat, len: nat): (r: seq<nat>)
    ensures |r| == len && forall k :: 0 <= k < len ==> r[k] == lo + k
  {
    seq(len, k requires 0 <= k < len => lo + k)
  }

  /** The attempts the search of category c draws on; none when the caller supplied fewer lists. */
  function SearchInput(searches: seq<seq<Attempt>>, c: nat): seq<Attempt>
  {
    if c < |searches| then searches[c] else []
  }

  /** Every supplied attempt is shaped for a search render of `iterations` steps. */
  predicate SearchesShaped(searches: seq<seq<Attempt>>, iterations: nat)
  {
    forall c, t :: 0 <= c < |searches| && 0 <= t < |searches[c]| ==> AttemptShaped(searches[c][t], iterations)
  }

  /** The outcome of the search of each of the first n categories. */
  function SearchResults(eps: real, searches: seq<seq<Attempt>>, n: nat): (r: seq<Option<ParamTable>>)
    requires eps > 0.0
    ensures |r| == n
  {
    seq(n, c requires 0 <= c < n && eps > 0.0 => SearchSpec(eps, SearchInput(searches, c)))
  }

  /**
   * results holds the outcome of each category search. A search is only
   * looked at where it is already under discussion.
   */
  ghost predicate IsSearchResults(eps: real, searches: seq<seq<Attempt>>, n: nat, results: seq<Option<ParamTable>>)
    requires eps > 0.0
  {
    && |results| == n
    && forall c {:trigger SearchSpec(eps, SearchInput(searches, c))} :: 0 <= c < n ==>
         results[c] == SearchSpec(eps, SearchInput(searches, c))
  }

  /** The outcome list is the only list of the searches' outcomes. */
  lemma SearchResultsUnique(eps: real, searches: seq<seq<Attempt>>, n: nat, results: seq<Option<ParamTable>>)
    requires eps > 0.0
    ensures IsSearchResults(eps, searches, n, results) <==> results == SearchResults(eps, searches, n)
  {
    var rs := SearchResults(eps, searches, n);
    if IsSearchResults(eps, searches, n, results) {
      forall c | 0 <= c < n ensures results[c] == rs[c] {
        assert results[c] == SearchSpec(eps, SearchInput(searches, c));
      }
    }
  }

  /** The tables are the collected outcomes of any list that holds the searches' outcomes. */
  lemma TablesCollect(eps: real, searches: seq<seq<Attempt>>, n: nat, results: seq<Option<ParamTable>>)
    requires eps > 0.0 && IsSearchResults(eps, searches, n, results)
    ensures Tables(eps, searches, n) == Collect(results)
  {
    SearchResultsUnique(eps, searches, n, results);
  }

  /** All the tables in order when every search found one, None otherwise. */
  function Collect(results: seq<Option<ParamTable>>): Option<seq<ParamTable>>
  {
    if |results| == 0 then Some([])
    else match (Collect(results[..|results| - 1]), results[|results| - 1])
      case (Some(ts), Some(t)) => Some(ts + [t])
      case _ => None
  }

  /** Collecting succeeds exactly when every search found a table, and keeps them in order. */
  lemma {:induction false} CollectAll(results: seq<Option<ParamTable>>)
    ensures Collect(results).Some? <==> forall c :: 0 <= c < |results| ==> results[c].Some?
    ensures Collect(results).Some? ==>
      && |Collect(results).value| == |results|
      && forall c :: 0 <= c < |results| ==> Collect(results).value[c] == results[c].value
  {
    if |results| > 0 {
      var front := results[..|results| - 1];
      CollectAll(front);
      assert forall c :: 0 <= c < |front| ==> front[c] == results[c];
    }
  }

  /** The tables of the first n category searches, in order; None when one of them finds nothing. */
  function Tables(eps: real, searches: seq<seq<Attempt>>, n: nat): Option<seq<ParamTable>>
    requires eps > 0.0
  {
    Collect(SearchResults(eps, searches, n))
  }

  /**
   * The jobs of a dataset: the per-image stream of the category tables and
   * the weight rows, image j saved under index j.
   */
  function DatasetJobs(tables: seq<ParamTable>, weights: seq<WeightRow>, instances: nat,
                       categories: nat, count: nat): (jobs: seq<Job>)
    requires PerImage(tables, weights, instances, categories, count).Some?
    ensures |jobs| == count && forall j :: 0 <= j < count ==> jobs[j].index == j
  {
    var st := PerImage(tables, weights, instances, categories, count).value;
    Jobs(st.params, st.weights, IndexRange(0, count))
  }

  /** Render job k of a batch from its draws, as _generate_image_batch calls _generator. */
  method RenderJob(jobs: seq<Job>, k: nat, draws: seq<ImageDraw>, height: nat, width: nat,
                   ghost images: seq<Option<Image>>)
    returns (image: array2<int>, ok: bool)
    requires k < |jobs| && JobsDrawn(jobs, draws)
    requires IsImages(jobs, draws, height, width, images)
    ensures ok == images[k].Some? && (ok ==> Grid(image) == images[k].value)
  {
    var job := jobs[k];
    var d := draws[job.index];
    image, ok := ImageGenerator.Generator(job.table, Iterations, height, width, false, Some(job.weight), d.rand, d.masks);
    assert images[k] == JobImage(jobs[k], draws[jobs[k].index], height, width);
  }

  /**
   * The offset loop of generate_dataset: batch b is given the indices that
   * follow all earlier batches, one per entry.
   */
  method AssignIndices(batches: seq<seq<ParamTable>>) returns (indices: seq<seq<nat>>)
    ensures |indices| == |batches|
    ensures forall b :: 0 <= b < |batches| ==> indices[b] == IndexRange(SumLens(batches[..b]), |batches[b]|)
  {
    indices := [];
    var offset := 0;
    var b := 0;
    while b < |batches|
      invariant 0 <= b <= |batches| && |indices| == b
      invariant offset == SumLens(batches[..b])
      invariant forall i :: 0 <= i < b ==> indices[i] == IndexRange(SumLens(batches[..i]), |batches[i]|)
    {
      var param := batches[b];
      var batchIndices := IndexRange(offset, |param|);
      assert batches[..b + 1][..b] == batches[..b];
      offset := offset + |param|;
      indices := indices + [batchIndices];
      b := b + 1;
    }
  }

  /** The index lists AssignIndices gives the sections of a split into n batches. */
  function BatchIndices<T>(s: seq<T>, n: nat): (indices: seq<seq<nat>>)
    requires n > 0
    ensures |indices| == n
  {
    var batches := ArraySplit(s, n);
    seq(n, b requires 0 <= b < n => IndexRange(SumLens(batches[..b]), |batches[b]|))
  }

  /**
   * The index lists of the batches, one after another, are 0, 1, ..., |s| - 1:
   * the final offset is the stream length and no index is skipped or repeated.
   */
  lemma BatchIndicesCover<T>(s: seq<T>, n: nat)
    requires n > 0
    ensures Flatten(BatchIndices(s, n)) == IndexRange(0, |s|)
  {
    BatchIndicesPrefix(s, n, n);
    BoundaryEnd(|s|, n);
    assert BatchIndices(s, n)[..n] == BatchIndices(s, n);
  }

  lemma {:induction false} BatchIndicesPrefix<T>(s: seq<T>, n: nat, k: nat)
    requires 0 < n && k <= n
    ensures Flatten(BatchIndices(s, n)[..k]) == IndexRange(0, Boundary(|s|, n, k))
  {
    if k > 0 {
      var idx := BatchIndices(s, n);
      BatchIndicesPrefix(s, n, k - 1);
      assert idx[..k][..k - 1] == idx[..k - 1];
      SplitOffset(s, n, k - 1);
      BoundaryStep(|s|, n, k - 1);
      var lo, hi := Boundary(|s|, n, k - 1), Boundary(|s|, n, k);
      assert idx[k - 1] == IndexRange(lo, hi - lo);
      assert IndexRange(0, lo) + IndexRange(lo, hi - lo) == IndexRange(0, hi);
    }
  }

  /** How a dataset generation ends. */
  datatype Outcome =
    | Done                              // every image saved
    | NoWorkers                         // a pool of zero processes, which the source refuses
    | SearchExhausted(category: nat)    // the search of this category found no table
    | RenderFailed                      // a render raised and the run stopped there

  /**
   * Batch b of an even split of the stream holds the jobs from its boundary
   * up to the next, saved under those consecutive indices.
   */
  lemma BatchJobs(params: seq<ParamTable>, weights: seq<WeightRow>, n: nat, b: nat)
    requires |params| == |weights| && 0 < n && b < n
    ensures var lo, hi := Boundary(|params|, n, b), Boundary(|params|, n, b + 1);
      && lo <= hi <= |params|
      && |ArraySplit(params, n)[b]| == |ArraySplit(weights, n)[b]| == hi - lo
      && Jobs(ArraySplit(params, n)[b], ArraySplit(weights, n)[b], IndexRange(lo, hi - lo))
           == Jobs(params, weights, IndexRange(0, |params|))[lo..hi]
  {
    var lo, hi := Boundary(|params|, n, b), Boundary(|params|, n, b + 1);
    BoundaryStep(|params|, n, b);
    BoundaryWithin(|params|, n, b + 1);
    var ps, ws := ArraySplit(params, n)[b], ArraySplit(weights, n)[b];
    var batch := Jobs(ps, ws, IndexRange(lo, hi - lo));
    var all := Jobs(params, weights, IndexRange(0, |params|));
    forall p | 0 <= p < hi - lo ensures batch[p] == all[lo..hi][p] {
      SplitAt(params, n, b, p);
      SplitAt(weights, n, b, p);
    }
  }

  /** A slice of jobs is drawn, and the same slice of their images holds its images. */
  lemma IsImagesSlice(jobs: seq<Job>, draws: seq<ImageDraw>, height: nat, width: nat,
                      images: seq<Option<Image>>, lo: nat, hi: nat)
    requires JobsDrawn(jobs, draws) && IsImages(jobs, draws, height, width, images)
    requires lo <= hi <= |jobs|
    ensures JobsDrawn(jobs[lo..hi], draws)
    ensures IsImages(jobs[lo..hi], draws, height, width, images[lo..hi])
  {
    var js, ims := jobs[lo..hi], images[lo..hi];
    forall k | 0 <= k < |js| ensures ims[k] == JobImage(js[k], draws[js[k].index], height, width) {
      assert js[k] == jobs[lo + k] && ims[k] == images[lo + k];
      assert images[lo + k] == JobImage(jobs[lo + k], draws[jobs[lo + k].index], height, width);
    }
  }

  /** The run of the jobs' images is the run of any list that holds them. */
  lemma RunOfImages(jobs: seq<Job>, draws: seq<ImageDraw>, height: nat, width: nat, images: seq<Option<Image>>)
    requires JobsDrawn(jobs, draws) && IsImages(jobs, draws, height, width, images)
    ensures RunOf(jobs, JobImages(jobs, draws, height, width)) == RunOf(jobs, images)
  {
    ImagesUnique(jobs, draws, height, width, images);
  }

  /** A prefix followed by the next slice is the longer prefix. */
  lemma SliceJoin<T>(s: seq<T>, lo: nat, hi: nat)
    requires lo <= hi <= |s|
    ensures s[..lo] + s[lo..hi] == s[..hi]
  {
  }

  /**
   * A complete run of jobs numbered 0..n-1 leaves exactly the files that
   * were there plus one "{:06d}.png" file per image index, each holding its
   * job's image: the names never collide.
   */
  lemma RunSavesEveryImage(files: map<string, Image>, jobs: seq<Job>, images: seq<Option<Image>>)
    requires |images| == |jobs|
    requires forall k :: 0 <= k < |jobs| ==> images[k].Some? && jobs[k].index == k
    ensures RunOf(jobs, images).complete
    ensures var saved := WriteAll(files, RunOf(jobs, images).outs);
      && saved.Keys == files.Keys + (set j | 0 <= j < |jobs| :: FileName(j))
      && forall j :: 0 <= j < |jobs| ==> saved[FileName(j)] == images[j].value
  {
    RunOfComplete(jobs, images);
    RunOfOuts(jobs, images);
    var outs := RunOf(jobs, images).outs;
    NamesDistinct(jobs, images, outs);
    WriteAllKeys(files, outs);
    WriteAllValues(files, outs);
    NamesOfOuts(jobs, images, outs);
    forall j | 0 <= j < |jobs| ensures WriteAll(files, outs)[FileName(j)] == images[j].value {
      assert outs[j] == (FileName(j), images[j].value);
    }
  }

  /** Files saved under distinct indices have distinct names. */
  lemma NamesDistinct(jobs: seq<Job>, images: seq<Option<Image>>, outs: seq<(string, Image)>)
    requires |images| == |jobs| == |outs|
    requires forall k :: 0 <= k < |jobs| ==> images[k].Some? && jobs[k].index == k
    requires forall k :: 0 <= k < |jobs| ==> outs[k] == (FileName(jobs[k].index), images[k].value)
    ensures forall i, j :: 0 <= i < j < |outs| ==> outs[i].0 != outs[j].0
  {
    forall i, j | 0 <= i < j < |outs| ensures outs[i].0 != outs[j].0 {
      if outs[i].0 == outs[j].0 {
        FileNameInjective(i, j);
      }
    }
  }

  /** The names a run saves under are the names of the indices 0..n-1. */
  lemma NamesOfOuts(jobs: seq<Job>, images: seq<Option<Image>>, outs: seq<(string, Image)>)
    requires |images| == |jobs| == |outs|
    requires forall k :: 0 <= k < |jobs| ==> images[k].Some? && jobs[k].index == k
    requires forall k :: 0 <= k < |jobs| ==> outs[k] == (FileName(jobs[k].index), images[k].value)
    ensures (set k | 0 <= k < |outs| :: outs[k].0) == (set j | 0 <= j < |jobs| :: FileName(j))
  {
    forall j | 0 <= j < |jobs| ensures FileName(j) in (set k | 0 <= k < |outs| :: outs[k].0) {
      assert outs[j].0 == FileName(j);
    }
  }

  /**
   * With room for the padding on both axes and pixel coordinates inside
   * uint16, every dataset render succeeds, so the run is complete.
   */
  lemma DatasetRendersAll(jobs: seq<Job>, draws: seq<ImageDraw>, height: nat, width: nat)
    requires JobsDrawn(jobs, draws)
    requires 2 * Pad <= height && height - Pad < 65536
    requires 2 * Pad <= width && width - Pad < 65536
    ensures RunOf(jobs, JobImages(jobs, draws, height, width)).complete
  {
    var images := JobImages(jobs, draws, height, width);
    forall k | 0 <= k < |jobs| ensures images[k].Some? {
      var d := draws[jobs[k].index];
      GeneratorRenders(jobs[k].table, Some(jobs[k].weight), d.rand, height, width, false, d.masks);
    }
    RunOfComplete(jobs, images);
  }
}
