/**
 * The integer bookkeeping of the synthetic image generator: how many
 * categories and instances to plan for a requested image count, how the
 * categories and weight rows expand into one (parameters, weight) entry per
 * image, how that stream is split into worker batches, and how output files
 * are named.
 */
module Planning {
  import opened Numeric

  /** One row of the weight catalogue: a multiplier for each of a..f. */
  type WeightRow = w: seq<real> | |w| == 6 witness [1.0, 1.0, 1.0, 1.0, 1.0, 1.0]

  /** One row of a category table: a, b, c, d, e, f and the map's selection probability. */
  type ParamRow = r: seq<real> | |r| == 7 witness [0.0, 0.0, 0.0, 0.0, 0.0, 0.0, 0.0]

  /** An accepted category: one row per map. */
  type ParamTable = seq<ParamRow>

  /**
   * The weight catalogue: 150 numbers read as 25 rows of 6. The first five
   * rows scale coefficient a by 0.2, 0.6, 1, 1.4 and 1.8 (the third is the
   * unscaled system); each later group of four scales one of b..f by 0.2,
   * 0.6, 1.4 and 1.8.
   */
  const BaseWeights: seq<WeightRow> := [
    [0.2, 1.0, 1.0, 1.0, 1.0, 1.0],
    [0.6, 1.0, 1.0, 1.0, 1.0, 1.0],
    [1.0, 1.0, 1.0, 1.0, 1.0, 1.0],
    [1.4, 1.0, 1.0, 1.0, 1.0, 1.0],
    [1.8, 1.0, 1.0, 1.0, 1.0, 1.0],
    [1.0, 0.2, 1.0, 1.0, 1.0, 1.0],
    [1.0, 0.6, 1.0, 1.0, 1.0, 1.0],
    [1.0, 1.4, 1.0, 1.0, 1.0, 1.0],
    [1.0, 1.8, 1.0, 1.0, 1.0, 1.0],
    [1.0, 1.0, 0.2, 1.0, 1.0, 1.0],
    [1.0, 1.0, 0.6, 1.0, 1.0, 1.0],
    [1.0, 1.0, 1.4, 1.0, 1.0, 1.0],
    [1.0, 1.0, 1.8, 1.0, 1.0, 1.0],
    [1.0, 1.0, 1.0, 0.2, 1.0, 1.0],
    [1.0, 1.0, 1.0, 0.6, 1.0, 1.0],
    [1.0, 1.0, 1.0, 1.4, 1.0, 1.0],
    [1.0, 1.0, 1.0, 1.8, 1.0, 1.0],
    [1.0, 1.0, 1.0, 1.0, 0.2, 1.0],
    [1.0, 1.0, 1.0, 1.0, 0.6, 1.0],
    [1.0, 1.0, 1.0, 1.0, 1.4, 1.0],
    [1.0, 1.0, 1.0, 1.0, 1.8, 1.0],
    [1.0, 1.0, 1.0, 1.0, 1.0, 0.2],
    [1.0, 1.0, 1.0, 1.0, 1.0, 0.6],
    [1.0, 1.0, 1.0, 1.0, 1.0, 1.4],
    [1.0, 1.0, 1.0, 1.0, 1.0, 1.8]
  ]

  /** The reference resolution whose area earns one point budget. */
  const DefaultImageSize: nat := 362 * 362

  /** The number of affine iterations per point budget. */
  const PointsPerBudget: nat := 100000

  // ---------------------------------------------------------------------
  // Sizing rule
  // ---------------------------------------------------------------------

  /**
   * The iteration budget for a category search render: the image area
   * measured in 362x362 reference areas, rounded half to even, at least one,
   * times 100000. The factor is 1 exactly when the area is below 1.5
   * reference areas; above that it is the nearest whole number of reference
   * areas, the even one on a tie.
   */
  function PointBudget(height: nat, width: nat): (r: nat)
    ensures r % PointsPerBudget == 0 && r >= PointsPerBudget
    ensures var c, area := r / PointsPerBudget, height * width;
      && (c == 1 <==> 2 * area < 3 * DefaultImageSize)
      && (c > 1 ==>
            && 2 * (area - c * DefaultImageSize) <= DefaultImageSize
            && 2 * (c * DefaultImageSize - area) <= DefaultImageSize
            && ((2 * (area - c * DefaultImageSize) == DefaultImageSize
                 || 2 * (c * DefaultImageSize - area) == DefaultImageSize) ==> c % 2 == 0))
  {
    var area := height * width;
    var rounded := RoundHalfEven(area, DefaultImageSize);
    var coeff := if rounded >= 1 then rounded else 1;
    assert (PointsPerBudget * coeff) / PointsPerBudget == coeff;
    RoundedAboveOne(area, rounded);
    PointsPerBudget * coeff
  }

  /** The area rounds to two or more reference areas exactly when it is at least 1.5 of them. */
  lemma RoundedAboveOne(area: nat, rounded: nat)
    requires rounded == RoundHalfEven(area, DefaultImageSize)
    ensures rounded >= 2 <==> 2 * area >= 3 * DefaultImageSize
  {
    var d := DefaultImageSize;
    if rounded >= 2 {
      assert rounded * d >= 2 * d;
    } else {
      assert rounded * d <= d;
    }
  }

  /** What the planner decides for a count: instances per weight row, categories, and weight rows kept. */
  datatype Sizing = Sizing(instances: nat, categories: nat, rows: nat)

  /**
   * The sizing rule. Fewer images than weight rows: one category, one
   * instance, and only the first `count` rows. Otherwise instances is the
   * ceiling of count / (4 * rows) and categories the ceiling of
   * count / (instances * rows).
   */
  function SizingRule(count: nat, rows: nat): (p: Sizing)
    requires rows > 0
    ensures count < rows ==> p == Sizing(1, 1, count)
    ensures count >= rows ==>
      (p.rows == rows && p.instances >= 1
       && p.instances * (4 * rows) >= count && (p.instances - 1) * (4 * rows) < count)
    ensures p.categories * (p.instances * p.rows) >= count
    ensures count > 0 ==> (p.categories - 1) * (p.instances * p.rows) < count
  {
    if count < rows then Sizing(1, 1, count)
    else
      var instances := CeilDiv(count, 4 * rows);
      assert instances >= 1;
      Sizing(instances, CeilDiv(count, instances * rows), rows)
  }

  // ---------------------------------------------------------------------
  // Expansion into one entry per image
  // ---------------------------------------------------------------------

  /** Every element of `s` repeated `n` times in place (numpy's repeat along axis 0). */
  function Repeat<T>(s: seq<T>, n: nat): (r: seq<T>)
    ensures |r| == |s| * n
  {
    if |s| == 0 then []
    else
      var rest := Repeat(s[1..], n);
      assert |s| * n == n + (|s| - 1) * n;
      seq(n, _ => s[0]) + rest
  }

  /** `s` written out `n` times one after another (numpy's tile along axis 0). */
  function Tile<T>(s: seq<T>, n: nat): (r: seq<T>)
    ensures |r| == |s| * n
  {
    if n == 0 then []
    else
      var rest := Tile(s, n - 1);
      assert |s| * n == |s| + |s| * (n - 1);
      s + rest
  }

  lemma {:induction false} RepeatAtBlock<T>(s: seq<T>, n: nat, q: nat, r: nat)
    requires q < |s| && r < n
    ensures q * n + r < |s| * n
    ensures Repeat(s, n)[q * n + r] == s[q]
  {
    MulMonotone(q + 1, |s|, n);
    if q > 0 {
      RepeatAtBlock(s[1..], n, q - 1, r);
      assert q * n + r == n + ((q - 1) * n + r);
    }
  }

  /** Entry k of a repeat is element k / n of the original. */
  lemma RepeatAt<T>(s: seq<T>, n: nat, k: nat)
    requires k < |s| * n
    ensures Repeat(s, n)[k] == s[k / n]
  {
    DivBelow(k, |s|, n);
    RepeatAtBlock(s, n, k / n, k % n);
  }

  lemma {:induction false} TileAtBlock<T>(s: seq<T>, n: nat, q: nat, r: nat)
    requires q < n && r < |s|
    ensures q * |s| + r < |s| * n
    ensures Tile(s, n)[q * |s| + r] == s[r]
  {
    MulMonotone(q + 1, n, |s|);
    if q > 0 {
      TileAtBlock(s, n - 1, q - 1, r);
      assert q * |s| + r == |s| + ((q - 1) * |s| + r);
    }
  }

  /** Entry k of a tiling is element k mod |s| of the original. */
  lemma TileAt<T>(s: seq<T>, n: nat, k: nat)
    requires k < |s| * n
    ensures Tile(s, n)[k] == s[k % |s|]
  {
    DivBelow(k, n, |s|);
    TileAtBlock(s, n, k / |s|, k % |s|);
  }

  /** The per-image stream: entry j pairs a category's table with a weight row. */
  datatype Stream = Stream(params: seq<ParamTable>, weights: seq<WeightRow>)

  /**
   * Image j of the stream carries category j / block and weight row
   * (j mod block) / instances, where a block is one category's run of
   * rows * instances images.
   */
  predicate CarriesEntry(params: seq<ParamTable>, weights: seq<WeightRow>, instances: nat,
                         st: Stream, j: nat)
  {
    var block := |weights| * instances;
    && block > 0 && instances > 0
    && j / block < |params| && (j % block) / instances < |weights|
    && j < |st.params| && j < |st.weights|
    && st.params[j] == params[j / block]
    && st.weights[j] == weights[(j % block) / instances]
  }

  /**
   * Expand categories and weight rows into one entry per image and cut the
   * stream to `count` entries; None is the failed length assertion. Each
   * weight row is repeated `instances` times in place, that block is tiled
   * `categories` times, and every category's table is repeated once per
   * image of its block.
   */
  function PerImage(params: seq<ParamTable>, weights: seq<WeightRow>, instances: nat,
                    categories: nat, count: nat): (r: Option<Stream>)
    ensures r.Some? <==> |params| * (|weights| * instances) >= count
                         && (|weights| * instances) * categories >= count
    ensures r.Some? ==> |r.value.params| == count && |r.value.weights| == count
  {
    var block := |weights| * instances;
    var instancesWeights := Repeat(weights, instances);
    var weightPerImg := Tile(instancesWeights, categories);
    var repeatedParams := Repeat(params, block);
    var p := repeatedParams[..MinNat(count, |repeatedParams|)];
    var w := weightPerImg[..MinNat(count, |weightPerImg|)];
    if |w| == count && |p| == count then Some(Stream(p, w)) else None
  }

  /**
   * Image j of an expanded stream carries category j / block and weight row
   * (j mod block) / instances.
   */
  lemma PerImageEntries(params: seq<ParamTable>, weights: seq<WeightRow>, instances: nat,
                        categories: nat, count: nat)
    requires PerImage(params, weights, instances, categories, count).Some?
    ensures var st := PerImage(params, weights, instances, categories, count).value;
      forall j :: 0 <= j < count ==> CarriesEntry(params, weights, instances, st, j)
  {
    var block := |weights| * instances;
    var st := PerImage(params, weights, instances, categories, count).value;
    assert st.params == Repeat(params, block)[..count];
    assert st.weights == Tile(Repeat(weights, instances), categories)[..count];
    StreamEntries(params, weights, instances, categories, count, st);
  }

  lemma StreamEntries(params: seq<ParamTable>, weights: seq<WeightRow>, instances: nat,
                      categories: nat, count: nat, st: Stream)
    requires |params| * (|weights| * instances) >= count
    requires (|weights| * instances) * categories >= count
    requires st.params == Repeat(params, |weights| * instances)[..count]
    requires st.weights == Tile(Repeat(weights, instances), categories)[..count]
    ensures forall j :: 0 <= j < count ==> CarriesEntry(params, weights, instances, st, j)
  {
    forall j | 0 <= j < count
      ensures CarriesEntry(params, weights, instances, st, j)
    {
      EntryAt(params, weights, instances, categories, j);
    }
  }

  lemma EntryAt(params: seq<ParamTable>, weights: seq<WeightRow>, instances: nat,
                categories: nat, j: nat)
    requires j < |params| * (|weights| * instances)
    requires j < (|weights| * instances) * categories
    ensures var block := |weights| * instances;
      && block > 0 && instances > 0
      && j / block < |params| && (j % block) / instances < |weights|
      && Repeat(params, block)[j] == params[j / block]
      && Tile(Repeat(weights, instances), categories)[j] == weights[(j % block) / instances]
  {
    var block := |weights| * instances;
    RepeatAt(params, block, j);
    DivBelow(j, |params|, block);
    TileAt(Repeat(weights, instances), categories, j);
    DivBelow(j % block, |weights|, instances);
    RepeatAt(weights, instances, j % block);
  }

  /**
   * The length assertion after expansion always holds for the sizing rule:
   * planning `SizingRule(count, |weights|)` on a non-empty catalogue (cut to
   * its first rows when count is below its length) yields exactly `count`
   * entries.
   */
  lemma SizedStreamIsExact(count: nat, weights: seq<WeightRow>, params: seq<ParamTable>)
    requires |weights| > 0
    requires |params| == SizingRule(count, |weights|).categories
    ensures var p := SizingRule(count, |weights|);
      PerImage(params, weights[..p.rows], p.instances, p.categories, count).Some?
  {
    var p := SizingRule(count, |weights|);
    var kept := weights[..p.rows];
    assert |kept| == p.rows;
    MulReorder(p.categories, p.instances, p.rows);
  }

  // ---------------------------------------------------------------------
  // Splitting into worker batches
  // ---------------------------------------------------------------------

  /** Where section i starts when l items are split into n sections (numpy's array_split). */
  function Boundary(l: nat, n: nat, i: nat): nat
    requires n > 0
  {
    i * (l / n) + MinNat(i, l % n)
  }

  lemma BoundaryStep(l: nat, n: nat, i: nat)
    requires n > 0
    ensures Boundary(l, n, i + 1) == Boundary(l, n, i) + l / n + (if i < l % n then 1 else 0)
  {
    assert (i + 1) * (l / n) == i * (l / n) + l / n;
  }

  lemma {:induction false} BoundaryMonotone(l: nat, n: nat, i: nat, j: nat)
    requires n > 0 && i <= j
    ensures Boundary(l, n, i) <= Boundary(l, n, j)
  {
    if i < j {
      BoundaryMonotone(l, n, i, j - 1);
      BoundaryStep(l, n, j - 1);
    }
  }

  lemma BoundaryEnd(l: nat, n: nat)
    requires n > 0
    ensures Boundary(l, n, n) == l
  {
    assert l == n * (l / n) + l % n;
  }

  lemma BoundaryWithin(l: nat, n: nat, i: nat)
    requires n > 0 && i <= n
    ensures Boundary(l, n, i) <= l
  {
    BoundaryMonotone(l, n, i, n);
    BoundaryEnd(l, n);
  }

  /**
   * Split `s` into n contiguous sections, the first |s| % n of them one
   * longer than the rest (numpy's array_split).
   */
  function ArraySplit<T>(s: seq<T>, n: nat): (r: seq<seq<T>>)
    requires n > 0
    ensures |r| == n
    ensures forall i :: 0 <= i < n ==>
      |r[i]| == |s| / n + (if i < |s| % n then 1 else 0)
    ensures n <= |s| ==> forall i :: 0 <= i < n ==> |r[i]| >= 1
  {
    assert n <= |s| ==> |s| / n >= 1 by {
      if n <= |s| {
        DivModUnique(|s|, n, |s| / n, |s| % n);
      }
    }
    seq(n, i requires 0 <= i < n => Section(s, n, i))
  }

  /** Section i of a split into n sections. */
  function Section<T>(s: seq<T>, n: nat, i: nat): (r: seq<T>)
    requires i < n
    ensures |r| == |s| / n + (if i < |s| % n then 1 else 0)
  {
    BoundaryWithin(|s|, n, i + 1);
    BoundaryStep(|s|, n, i);
    s[Boundary(|s|, n, i)..Boundary(|s|, n, i + 1)]
  }

  /** The sections of a split one after another. */
  function Flatten<T>(ss: seq<seq<T>>): seq<T>
  {
    if |ss| == 0 then [] else Flatten(ss[..|ss| - 1]) + ss[|ss| - 1]
  }

  /** The first k sections of a split are exactly the prefix up to section k's boundary. */
  lemma {:induction false} SplitPrefix<T>(s: seq<T>, n: nat, k: nat)
    requires n > 0 && k <= n
    ensures Boundary(|s|, n, k) <= |s|
    ensures Flatten(ArraySplit(s, n)[..k]) == s[..Boundary(|s|, n, k)]
  {
    BoundaryWithin(|s|, n, k);
    if k > 0 {
      var r := ArraySplit(s, n);
      SplitPrefix(s, n, k - 1);
      BoundaryWithin(|s|, n, k - 1);
      BoundaryStep(|s|, n, k - 1);
      assert r[..k][..k - 1] == r[..k - 1];
      assert r[k - 1] == s[Boundary(|s|, n, k - 1)..Boundary(|s|, n, k)];
      assert s[..Boundary(|s|, n, k - 1)] + s[Boundary(|s|, n, k - 1)..Boundary(|s|, n, k)]
          == s[..Boundary(|s|, n, k)];
    }
  }

  /** Concatenating the sections in order gives back the whole stream. */
  lemma SplitConcat<T>(s: seq<T>, n: nat)
    requires n > 0
    ensures Flatten(ArraySplit(s, n)) == s
  {
    SplitPrefix(s, n, n);
    BoundaryEnd(|s|, n);
    assert ArraySplit(s, n)[..n] == ArraySplit(s, n);
  }

  /** Section b of a split holds the stream entries from its boundary on. */
  lemma SplitAt<T>(s: seq<T>, n: nat, b: nat, p: nat)
    requires n > 0 && b < n && p < |ArraySplit(s, n)[b]|
    ensures Boundary(|s|, n, b) + p < |s|
    ensures ArraySplit(s, n)[b][p] == s[Boundary(|s|, n, b) + p]
  {
    BoundaryWithin(|s|, n, b + 1);
    BoundaryStep(|s|, n, b);
  }

  /** Two streams of the same length are cut at the same places. */
  lemma SplitAligned<T, U>(s: seq<T>, t: seq<U>, n: nat)
    requires n > 0 && |s| == |t|
    ensures forall i :: 0 <= i < n ==> |ArraySplit(s, n)[i]| == |ArraySplit(t, n)[i]|
  {
  }

  /** Total length of a list of sections. */
  function SumLens<T>(ss: seq<seq<T>>): nat
  {
    if |ss| == 0 then 0 else SumLens(ss[..|ss| - 1]) + |ss[|ss| - 1]|
  }

  lemma {:induction false} SumLensFlatten<T>(ss: seq<seq<T>>)
    ensures SumLens(ss) == |Flatten(ss)|
  {
    if |ss| > 0 {
      SumLensFlatten(ss[..|ss| - 1]);
    }
  }

  /** The offset reached after the first b sections of a split is section b's boundary. */
  lemma SplitOffset<T>(s: seq<T>, n: nat, b: nat)
    requires n > 0 && b <= n
    ensures SumLens(ArraySplit(s, n)[..b]) == Boundary(|s|, n, b)
  {
    SplitPrefix(s, n, b);
    SumLensFlatten(ArraySplit(s, n)[..b]);
  }

  // ---------------------------------------------------------------------
  // Output file names
  // ---------------------------------------------------------------------

  predicate IsDigit(c: char)
  {
    '0' <= c <= '9'
  }

  function DigitChar(d: nat): (c: char)
    requires d < 10
    ensures IsDigit(c)
  {
    ('0' as int + d) as char
  }

  /** Decimal digits of i, most significant first, no leading zeros. */
  function Digits(i: nat): (s: string)
    ensures |s| >= 1 && forall k :: 0 <= k < |s| ==> IsDigit(s[k])
  {
    if i < 10 then [DigitChar(i)] else Digits(i / 10) + [DigitChar(i % 10)]
  }

  /** Left-pad with '0' up to `width` characters (the 0 flag and width of a format spec). */
  function ZeroPad(s: string, width: nat): (r: string)
    ensures |r| == if |s| >= width then |s| else width
  {
    if |s| >= width then s else seq(width - |s|, _ => '0') + s
  }

  /** The name under which image i is written: its index, zero-padded to six digits, then ".png". */
  function FileName(i: nat): (name: string)
    ensures |name| >= 10
    ensures name[|name| - 4..] == ".png"
    ensures forall k :: 0 <= k < |name| - 4 ==> IsDigit(name[k])
  {
    ZeroPad(Digits(i), 6) + ".png"
  }

  /** The value of a string of decimal digits. */
  function ParseDecimal(s: string): nat
    requires forall k :: 0 <= k < |s| ==> IsDigit(s[k])
  {
    if |s| == 0 then 0
    else
      assert IsDigit(s[|s| - 1]);
      ParseDecimal(s[..|s| - 1]) * 10 + (s[|s| - 1] as int - '0' as int)
  }

  lemma {:induction false} ParseDigits(i: nat)
    ensures ParseDecimal(Digits(i)) == i
  {
    if i >= 10 {
      ParseDigits(i / 10);
      var s := Digits(i);
      assert s[..|s| - 1] == Digits(i / 10);
    }
  }

  lemma {:induction false} ParseZeros(k: nat)
    ensures ParseDecimal(seq(k, _ => '0')) == 0
  {
    if k > 0 {
      ParseZeros(k - 1);
      assert seq(k, _ => '0')[..k - 1] == seq(k - 1, _ => '0');
    }
  }

  lemma {:induction false} ParseLeadingZeros(k: nat, s: string)
    requires forall j :: 0 <= j < |s| ==> IsDigit(s[j])
    ensures ParseDecimal(seq(k, _ => '0') + s) == ParseDecimal(s)
  {
    var z := seq(k, _ => '0');
    if |s| == 0 {
      assert z + s == z;
      ParseZeros(k);
    } else {
      ParseLeadingZeros(k, s[..|s| - 1]);
      assert (z + s)[..|z + s| - 1] == z + s[..|s| - 1];
    }
  }

  /** The digits of a file name read back as the image index. */
  lemma FileNameIndex(i: nat)
    ensures var name := FileName(i); ParseDecimal(name[..|name| - 4]) == i
  {
    var d := Digits(i);
    var name := FileName(i);
    assert name[..|name| - 4] == ZeroPad(d, 6);
    ParseDigits(i);
    if |d| < 6 {
      ParseLeadingZeros(6 - |d|, d);
    }
  }

  /** Distinct images never share a file name. */
  lemma FileNameInjective(i: nat, j: nat)
    requires FileName(i) == FileName(j)
    ensures i == j
  {
    FileNameIndex(i);
    FileNameIndex(j);
  }

  lemma {:induction false} DigitsLength(i: nat, k: nat)
    requires k >= 1 && i < Pow10(k)
    ensures |Digits(i)| <= k
  {
    if i >= 10 {
      assert k >= 2;
      DigitsLength(i / 10, k - 1);
    }
  }

  /** Indices below one million get names of exactly six digits and the extension. */
  lemma FileNameWidth(i: nat)
    requires i < 1000000
    ensures |FileName(i)| == 10
  {
    assert Pow10(6) == 1000000;
    DigitsLength(i, 6);
  }
}
