/** Exact integer and real arithmetic that the generator's numpy expressions rely on. */
module Numeric {

  datatype Option<+T> = None | Some(value: T)

  function MinNat(a: nat, b: nat): (r: nat)
    ensures r <= a && r <= b && (r == a || r == b)
  {
    if a <= b then a else b
  }

  function Abs(x: real): (r: real)
    ensures r >= 0.0 && (r == x || r == -x)
  {
    if x < 0.0 then -x else x
  }

  /** Sum of a sequence of reals, accumulated from the front as the source's loops do. */
  function Sum(s: seq<real>): real
  {
    if |s| == 0 then 0.0 else Sum(s[..|s| - 1]) + s[|s| - 1]
  }

  lemma {:induction false} SumNonNegative(s: seq<real>)
    requires forall k :: 0 <= k < |s| ==> s[k] >= 0.0
    ensures Sum(s) >= 0.0
  {
    if |s| > 0 {
      SumNonNegative(s[..|s| - 1]);
    }
  }

  /** Prefix sums of non-negative terms never decrease. */
  lemma {:induction false} SumPrefixMonotone(s: seq<real>, i: nat, j: nat)
    requires i <= j <= |s|
    requires forall k :: 0 <= k < |s| ==> s[k] >= 0.0
    ensures Sum(s[..i]) <= Sum(s[..j])
  {
    if i < j {
      SumPrefixMonotone(s, i, j - 1);
      assert s[..j][..j - 1] == s[..j - 1];
    }
  }

  /** Dividing every term by the same positive number divides the sum. */
  lemma {:induction false} SumScaled(s: seq<real>, t: seq<real>, d: real)
    requires d > 0.0 && |s| == |t|
    requires forall k :: 0 <= k < |s| ==> t[k] == s[k] / d
    ensures Sum(t) == Sum(s) / d
  {
    if |s| > 0 {
      SumScaled(s[..|s| - 1], t[..|t| - 1], d);
    }
  }

  /** The smallest element of a non-empty sequence (numpy's min). */
  function MinOf(s: seq<real>): (r: real)
    requires |s| > 0
    ensures forall k :: 0 <= k < |s| ==> r <= s[k]
    ensures r in s
  {
    if |s| == 1 then s[0]
    else
      var m := MinOf(s[..|s| - 1]);
      if s[|s| - 1] < m then s[|s| - 1] else m
  }

  /** The largest element of a non-empty sequence (numpy's max). */
  function MaxOf(s: seq<real>): (r: real)
    requires |s| > 0
    ensures forall k :: 0 <= k < |s| ==> s[k] <= r
    ensures r in s
  {
    if |s| == 1 then s[0]
    else
      var m := MaxOf(s[..|s| - 1]);
      if s[|s| - 1] > m then s[|s| - 1] else m
  }

  /** An element no larger than every other is the minimum. */
  lemma MinAt(s: seq<real>, i: nat)
    requires i < |s| && forall k :: 0 <= k < |s| ==> s[i] <= s[k]
    ensures MinOf(s) == s[i]
  {
  }

  /** An element no smaller than every other is the maximum. */
  lemma MaxAt(s: seq<real>, i: nat)
    requires i < |s| && forall k :: 0 <= k < |s| ==> s[k] <= s[i]
    ensures MaxOf(s) == s[i]
  {
  }

  /** Products of three factors do not depend on their order. */
  lemma MulReorder(a: nat, b: nat, c: nat)
    ensures a * (b * c) == a * (c * b) == (c * b) * a
  {
  }

  lemma MulMonotone(a: nat, b: nat, n: nat)
    requires a <= b
    ensures a * n <= b * n
  {
  }

  /** Quotient and remainder are determined by k == q * n + r with 0 <= r < n. */
  lemma DivModUnique(k: int, n: int, q: int, r: int)
    requires n > 0 && 0 <= r < n && k == q * n + r
    ensures k / n == q && k % n == r
  {
    var q', r' := k / n, k % n;
    assert k == q' * n + r';
    assert (q - q') * n == r' - r;
    if q > q' {
      MulMonotone(1, q - q', n);
    } else if q < q' {
      MulMonotone(1, q' - q, n);
    }
  }

  /** An index below m * n has a quotient by n below m. */
  lemma DivBelow(k: nat, m: nat, n: nat)
    requires k < m * n
    ensures n > 0 && k / n < m && k % n < n && k == (k / n) * n + k % n
  {
    if k / n >= m {
      MulMonotone(m, k / n, n);
    }
  }

  /** Ceiling of n / d, the value numpy's ceil gives for an exact quotient. */
  function CeilDiv(n: nat, d: nat): (r: nat)
    requires d > 0
    ensures r * d >= n
    ensures r == 0 || (r - 1) * d < n
  {
    var q := n / d;
    if n % d == 0 then q else q + 1
  }

  /**
   * Round n / d to the nearest integer, ties to the even neighbour
   * (numpy's round).
   */
  function RoundHalfEven(n: nat, d: nat): (r: nat)
    requires d > 0
    ensures 2 * (n - r * d) <= d && 2 * (r * d - n) <= d
    ensures 2 * (n - r * d) == d || 2 * (r * d - n) == d ==> r % 2 == 0
  {
    var q, m := n / d, n % d;
    assert q * d == n - m && (q + 1) * d == n - m + d by {
      assert n == q * d + m;
    }
    if 2 * m < d then q
    else if 2 * m > d then q + 1
    else if q % 2 == 0 then q
    else q + 1
  }

  function Pow10(k: nat): (r: nat)
    ensures r >= 1
  {
    if k == 0 then 1 else 10 * Pow10(k - 1)
  }

  function Pow2(k: nat): (r: nat)
    ensures r >= 1
  {
    if k == 0 then 1 else 2 * Pow2(k - 1)
  }
}
