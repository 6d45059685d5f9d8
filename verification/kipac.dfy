/** The Kipa-compatible numeric primitives the evaluator dispatches to
    (src/kipac/mod.rs), over exact reals.

    Where the source produces a non-finite float (a `NaN` fold seed that
    survives an empty list, a division by zero) the model returns `None`;
    where it indexes out of range (median of an empty list) it returns
    `None` too. The transcendental functions of the same file are not here:
    the evaluator receives them as parameters (see `Calc.Math`). */
module Kipac {
  import opened Wrappers

  /** Seconds in one day: the wrap-around period of `aikavali`. */
  const Day: real := 86400.0

  /** Time from `a` to `b` in seconds, wrapping negative differences over
      midnight by adding one day. */
  function Aikavali(a: real, b: real): (r: real)
    ensures r - (b - a) == 0.0 || r - (b - a) == Day
    ensures r == b - a <==> a <= b
  {
    var s := b - a;
    if s < 0.0 then s + Day else s
  }

  /** For two times of day, the interval is itself a time span within one
      day, and adding it to `a` reaches `b` (possibly on the next day). */
  lemma AikavaliWithinDay(a: real, b: real)
    requires 0.0 <= a < Day && 0.0 <= b < Day
    ensures 0.0 <= Aikavali(a, b) < Day
    ensures a + Aikavali(a, b) == b || a + Aikavali(a, b) == b + Day
  {
  }

  function Abs(x: real): (r: real)
    ensures r >= 0.0
    ensures r == x || r == -x
  {
    if x < 0.0 then -x else x
  }

  /** True when `x` has no fractional part. */
  predicate Integral(x: real) {
    x.Floor as real == x
  }

  /** The greatest integral value not above `x`. */
  function Floor(x: real): (r: real)
    ensures Integral(r)
    ensures r <= x < r + 1.0
  {
    x.Floor as real
  }

  /** The least integral value not below `x`. */
  function Ceil(x: real): (r: real)
    ensures Integral(r)
    ensures r - 1.0 < x <= r
  {
    var k := (-x).Floor;
    assert k as real <= -x < k as real + 1.0;
    (-k) as real
  }

  /** `x` rounded toward zero, as Rust's `as` casts and `%` do. */
  function Trunc(x: real): (r: real)
    ensures Integral(r)
    ensures x >= 0.0 ==> 0.0 <= r <= x < r + 1.0
    ensures x < 0.0 ==> r - 1.0 < x <= r <= 0.0
  {
    if x >= 0.0 then Floor(x) else Ceil(x)
  }

  lemma AbsProduct(x: real, y: real)
    ensures Abs(x * y) == Abs(x) * Abs(y)
  {
    if x < 0.0 && y < 0.0 {
      assert x * y == (-x) * (-y);
    } else if x < 0.0 {
      assert -(x * y) == (-x) * y;
    } else if y < 0.0 {
      assert -(x * y) == x * (-y);
    }
  }

  /** A fraction of the divisor with magnitude below one is smaller than it. */
  lemma FractionBelow(b: real, f: real)
    requires b != 0.0 && Abs(f) < 1.0
    ensures Abs(b * f) < Abs(b)
  {
    AbsProduct(b, f);
    assert Abs(b) - Abs(b) * Abs(f) == Abs(b) * (1.0 - Abs(f));
  }

  /** A product is positive exactly when both factors share a strict sign. */
  lemma ProductSign(x: real, y: real)
    ensures x * y > 0.0 <==> (x > 0.0 && y > 0.0) || (x < 0.0 && y < 0.0)
    ensures x * y == 0.0 <==> x == 0.0 || y == 0.0
  {
    AbsProduct(x, y);
  }

  /** The remainder is the divisor times the fractional part of the
      quotient. */
  lemma RemainderIsFraction(a: real, b: real)
    requires b != 0.0
    ensures a - b * Trunc(a / b) == b * (a / b - Trunc(a / b))
    ensures a == b * (a / b)
  {
  }

  lemma RemainderBound(a: real, b: real)
    requires b != 0.0
    ensures Abs(a - b * Trunc(a / b)) < Abs(b)
  {
    var f := a / b - Trunc(a / b);
    RemainderIsFraction(a, b);
    assert Abs(f) < 1.0;
    FractionBelow(b, f);
  }

  lemma RemainderSign(a: real, b: real)
    requires b != 0.0
    ensures var r := a - b * Trunc(a / b);
      r == 0.0 || (r > 0.0 <==> a > 0.0)
  {
    var d := a / b;
    var f := d - Trunc(d);
    RemainderIsFraction(a, b);
    assert f == 0.0 || (f > 0.0 <==> d > 0.0);
    ProductSign(b, f);
    ProductSign(b, d);
  }

  /** Taking the remainder away leaves `q` whole divisors. */
  lemma Cancel(a: real, b: real, q: real)
    requires b != 0.0
    ensures (a - (a - b * q)) / b == q
  {
    assert a - (a - b * q) == b * q;
  }

  /** Float remainder `a % b`: truncated division, so the result takes the
      sign of the dividend. A zero divisor gives NaN in the source. */
  function Kmod(a: real, b: real): (r: Option<real>)
    ensures r.Some? <==> b != 0.0
    ensures r.Some? ==> Abs(r.value) < Abs(b)
    ensures r.Some? ==> r.value == 0.0 || (r.value > 0.0 <==> a > 0.0)
    ensures r.Some? ==> Integral((a - r.value) / b)
  {
    if b == 0.0 then None
    else
      var q := Trunc(a / b);
      RemainderFacts(a, b, q);
      Some(a - b * q)
  }

  /** The three promises of `Kmod` about the truncated remainder. */
  lemma RemainderFacts(a: real, b: real, q: real)
    requires b != 0.0 && q == Trunc(a / b)
    ensures Abs(a - b * q) < Abs(b)
    ensures a - b * q == 0.0 || (a - b * q > 0.0 <==> a > 0.0)
    ensures Integral((a - (a - b * q)) / b)
  {
    RemainderBound(a, b);
    RemainderSign(a, b);
    Cancel(a, b, q);
  }

  /** Raw linear interpolation: the line through `(x1, y1)` and `(x2, 0)`
      evaluated at `x`. The fifth argument is accepted and ignored. */
  function Interpoloi(x: real, x1: real, y1: real, x2: real, y2: real): (r: Option<real>)
    ensures r.Some? <==> x1 != x2
    ensures r.Some? ==> r.value * (x1 - x2) == y1 * (x - x2)
  {
    if x1 == x2 then None else Some(y1 * (x - x2) / (x1 - x2))
  }

  /** The interpolation line meets `(x1, y1)` and `(x2, 0)` whatever `y2` is. */
  lemma InterpoloiEndpoints(x1: real, y1: real, x2: real, y2: real)
    requires x1 != x2
    ensures Interpoloi(x1, x1, y1, x2, y2) == Some(y1)
    ensures Interpoloi(x2, x1, y1, x2, y2) == Some(0.0)
  {
    var d := x1 - x2;
    var r1, r2 := Interpoloi(x1, x1, y1, x2, y2).value, Interpoloi(x2, x1, y1, x2, y2).value;
    MulCancel(r1, y1, d);
    assert r2 * d == 0.0 * d;
    MulCancel(r2, 0.0, d);
  }

  lemma MulCancel(a: real, b: real, d: real)
    requires d != 0.0 && a * d == b * d
    ensures a == b
  {
    assert (a - b) * d == 0.0;
  }

  function Sum(xs: seq<real>): real
  {
    if |xs| == 0 then 0.0 else xs[0] + Sum(xs[1..])
  }

  lemma {:induction false} SumAppend(xs: seq<real>, ys: seq<real>)
    ensures Sum(xs + ys) == Sum(xs) + Sum(ys)
  {
    if |xs| == 0 {
      assert xs + ys == ys;
    } else {
      assert (xs + ys)[1..] == xs[1..] + ys;
      SumAppend(xs[1..], ys);
    }
  }

  /** A sum of `n` values, each between `lo` and `hi`, lies between
      `n * lo` and `n * hi`. */
  lemma {:induction false} SumBounds(xs: seq<real>, lo: real, hi: real)
    requires forall i :: 0 <= i < |xs| ==> lo <= xs[i] <= hi
    ensures |xs| as real * lo <= Sum(xs) <= |xs| as real * hi
  {
    if |xs| > 0 {
      SumBounds(xs[1..], lo, hi);
    }
  }

  /** Arithmetic mean; an empty list divides 0 by 0 in the source. */
  function Mean(xs: seq<real>): (r: Option<real>)
    ensures r.Some? <==> |xs| > 0
    ensures r.Some? ==> r.value * |xs| as real == Sum(xs)
  {
    if |xs| == 0 then None else Some(Sum(xs) / |xs| as real)
  }

  /** `f64::min` of a number and the accumulator, with `None` standing for
      the `NaN` seed that any number replaces. */
  function MinStep(acc: Option<real>, x: real): real {
    if acc.None? then x else if x < acc.value then x else acc.value
  }

  function MaxStep(acc: Option<real>, x: real): real {
    if acc.None? then x else if x > acc.value then x else acc.value
  }

  /** Left fold of `MinStep` over `xs` starting from `acc`. */
  function MinFrom(acc: Option<real>, xs: seq<real>): (r: Option<real>)
    ensures r.None? <==> acc.None? && |xs| == 0
    ensures r.Some? ==> (exists i :: 0 <= i < |xs| && r.value == xs[i]) || r == acc
    ensures r.Some? ==> forall i :: 0 <= i < |xs| ==> r.value <= xs[i]
    ensures r.Some? && acc.Some? ==> r.value <= acc.value
    decreases |xs|
  {
    if |xs| == 0 then acc
    else
      var r := MinFrom(Some(MinStep(acc, xs[0])), xs[1..]);
      assert forall i :: 1 <= i < |xs| ==> xs[i] == xs[1..][i - 1];
      r
  }

  function MaxFrom(acc: Option<real>, xs: seq<real>): (r: Option<real>)
    ensures r.None? <==> acc.None? && |xs| == 0
    ensures r.Some? ==> (exists i :: 0 <= i < |xs| && r.value == xs[i]) || r == acc
    ensures r.Some? ==> forall i :: 0 <= i < |xs| ==> r.value >= xs[i]
    ensures r.Some? && acc.Some? ==> r.value >= acc.value
    decreases |xs|
  {
    if |xs| == 0 then acc
    else
      var r := MaxFrom(Some(MaxStep(acc, xs[0])), xs[1..]);
      assert forall i :: 1 <= i < |xs| ==> xs[i] == xs[1..][i - 1];
      r
  }

  /** Smallest element; `None` (the surviving `NaN` seed) for an empty list. */
  function Min(xs: seq<real>): (r: Option<real>)
    ensures r.Some? <==> |xs| > 0
    ensures r.Some? ==> r.value in xs
    ensures r.Some? ==> forall i :: 0 <= i < |xs| ==> r.value <= xs[i]
  {
    MinFrom(None, xs)
  }

  /** Largest element; `None` (the surviving `NaN` seed) for an empty list. */
  function Max(xs: seq<real>): (r: Option<real>)
    ensures r.Some? <==> |xs| > 0
    ensures r.Some? ==> r.value in xs
    ensures r.Some? ==> forall i :: 0 <= i < |xs| ==> r.value >= xs[i]
  {
    MaxFrom(None, xs)
  }

  /** The mean of a non-empty list lies between its minimum and maximum. */
  lemma MeanWithinRange(xs: seq<real>)
    requires |xs| > 0
    ensures Min(xs).value <= Mean(xs).value <= Max(xs).value
  {
    MeanBetween(xs, Min(xs).value, Max(xs).value);
  }

  lemma MeanBetween(xs: seq<real>, lo: real, hi: real)
    requires |xs| > 0 && forall i :: 0 <= i < |xs| ==> lo <= xs[i] <= hi
    ensures lo <= Mean(xs).value <= hi
  {
    SumBounds(xs, lo, hi);
    DivBounds(Sum(xs), |xs| as real, lo, hi);
  }

  lemma DivBounds(s: real, n: real, lo: real, hi: real)
    requires n > 0.0 && n * lo <= s <= n * hi
    ensures lo <= s / n <= hi
  {
    assert s / n - lo == (s - n * lo) / n;
    assert hi - s / n == (n * hi - s) / n;
  }

  predicate Sorted(s: seq<real>) {
    forall i, j :: 0 <= i < j < |s| ==> s[i] <= s[j]
  }

  /** Places `x` before the first element of sorted `s` that exceeds it. */
  function Insert(x: real, s: seq<real>): (r: seq<real>)
    requires Sorted(s)
    ensures Sorted(r)
    ensures multiset(r) == multiset(s) + multiset{x}
    ensures |r| == |s| + 1
    decreases |s|
  {
    if |s| == 0 then [x]
    else if x <= s[0] then [x] + s
    else
      var t := Insert(x, s[1..]);
      InsertBehindHead(x, s, t);
      [s[0]] + t
  }

  /** Putting the head of `s` back in front of the insertion into its
      tail keeps the order and the elements. */
  lemma InsertBehindHead(x: real, s: seq<real>, t: seq<real>)
    requires Sorted(s) && |s| > 0 && s[0] < x
    requires Sorted(t) && multiset(t) == multiset(s[1..]) + multiset{x}
    ensures Sorted([s[0]] + t)
    ensures multiset([s[0]] + t) == multiset(s) + multiset{x}
  {
    assert s == [s[0]] + s[1..];
    forall k | 0 <= k < |t|
      ensures s[0] <= t[k]
    {
      assert t[k] in multiset(t);
      if t[k] != x {
        assert t[k] in multiset(s[1..]);
        var j :| 0 <= j < |s[1..]| && s[1..][j] == t[k];
        assert s[j + 1] == t[k];
      }
    }
  }

  /** Ascending sort; stands for `sort_by(partial_cmp)` on NaN-free input. */
  function Sort(xs: seq<real>): (r: seq<real>)
    ensures Sorted(r)
    ensures multiset(r) == multiset(xs)
    decreases |xs|
  {
    if |xs| == 0 then []
    else
      assert xs == [xs[0]] + xs[1..];
      Insert(xs[0], Sort(xs[1..]))
  }

  /** Two sorted lists holding the same elements are the same list, so
      `Sort` is determined by the multiset of its input. */
  lemma {:induction false} SortedUnique(a: seq<real>, b: seq<real>)
    requires Sorted(a) && Sorted(b)
    requires multiset(a) == multiset(b)
    ensures a == b
    decreases |a|
  {
    if |a| == 0 {
      assert |multiset(b)| == 0;
    } else {
      SortedSplit(a, b);
      SortedUnique(a[1..], b[1..]);
      assert a == [a[0]] + a[1..];
      assert b == [b[0]] + b[1..];
    }
  }

  /** Sorted lists with equal multisets share their head, and their tails
      again are sorted with equal multisets. */
  lemma SortedSplit(a: seq<real>, b: seq<real>)
    requires Sorted(a) && Sorted(b) && |a| > 0
    requires multiset(a) == multiset(b)
    ensures |b| > 0 && a[0] == b[0]
    ensures Sorted(a[1..]) && Sorted(b[1..])
    ensures multiset(a[1..]) == multiset(b[1..])
  {
    SortedHeadIsLeast(b, a[0]);
    SortedHeadIsLeast(a, b[0]);
    assert a == [a[0]] + a[1..];
    assert b == [b[0]] + b[1..];
    assert multiset(a[1..]) == multiset(a) - multiset{a[0]};
    assert multiset(b[1..]) == multiset(b) - multiset{b[0]};
  }

  lemma SortedHeadIsLeast(s: seq<real>, x: real)
    requires Sorted(s) && x in multiset(s)
    ensures |s| > 0 && s[0] <= x
  {
    assert x in s;
    var j :| 0 <= j < |s| && s[j] == x;
  }

  /** Median: the middle element of the sorted list, or the average of the
      two middle elements when the length is even. The source indexes out
      of range on an empty list. */
  function Median(xs: seq<real>): (r: Option<real>)
    ensures r.Some? <==> |xs| > 0
  {
    assert |Sort(xs)| == |multiset(xs)| == |xs|;
    Middle(Sort(xs))
  }

  /** The middle of an already sorted list. */
  function Middle(s: seq<real>): Option<real> {
    var n := |s|;
    if n == 0 then None
    else if n % 2 == 0 then Some((s[n / 2] + s[n / 2 - 1]) / 2.0)
    else Some(s[n / 2])
  }

  /** The median depends only on which values occur, not on their order. */
  lemma MedianPermutationInvariant(xs: seq<real>, ys: seq<real>)
    requires multiset(xs) == multiset(ys)
    ensures Median(xs) == Median(ys)
  {
    SortedUnique(Sort(xs), Sort(ys));
  }

  /** The median of a non-empty list lies between its minimum and maximum. */
  lemma MedianWithinRange(xs: seq<real>)
    requires |xs| > 0
    ensures Min(xs).value <= Median(xs).value <= Max(xs).value
  {
    var s := Sort(xs);
    assert Median(xs) == Middle(s);
    var n := |s|;
    assert n == |multiset(xs)| == |xs|;
    var lo, hi := Min(xs).value, Max(xs).value;
    forall k | 0 <= k < n
      ensures lo <= s[k] <= hi
    {
      assert s[k] in multiset(xs);
      assert s[k] in xs;
    }
  }

  lemma PrimitiveTests()
    ensures Aikavali(5.0, 10.0) == 5.0
    ensures Aikavali(10.0, 10.0) == 0.0
    ensures Aikavali(86400.0, 100.0) == 100.0
    ensures Abs(-5.0) == 5.0 && Abs(5.0) == 5.0
    ensures Abs(25.5555) == 25.5555 && Abs(-25.50) == 25.50
    ensures Floor(1.0) == 1.0 && Floor(1.6) == 1.0 && Floor(1.999) == 1.0
    ensures Floor(1.5) == 1.0 && Floor(-0.4) == -1.0
    ensures Ceil(1.0) == 1.0 && Ceil(1.6) == 2.0 && Ceil(1.999) == 2.0
    ensures Ceil(1.5) == 2.0 && Ceil(-1.4) == -1.0
    ensures Kmod(4.0, 2.0) == Some(0.0) && Kmod(3.0, 2.0) == Some(1.0)
    ensures Kmod(12.0, 2.0) == Some(0.0) && Kmod(17.0, 5.0) == Some(2.0)
    ensures Kmod(14.0, 4.0) == Some(2.0)
  {
  }

  lemma MaxMinTests()
    ensures Max([5.0, 1.0, -10.0, 4.99999, 2.5]) == Some(5.0)
    ensures Min([5.0, 1.0, -10.0, 4.99999, 2.5]) == Some(-10.0)
    ensures Min([0.0, 1.0]) == Some(0.0)
  {
    var xs := [5.0, 1.0, -10.0, 4.99999, 2.5];
    assert Max(xs).value >= xs[0];
    assert Min(xs).value <= xs[2];
    var ys := [0.0, 1.0];
    assert Min(ys).value <= ys[0];
  }

  lemma MeanTest()
    ensures Mean([1.0, 2.0, 3.0]) == Some(2.0)
  {
    assert Sum([1.0, 2.0, 3.0]) == 6.0;
  }

  lemma MedianTest()
    ensures Median([1.0, 2.0, 3.0]) == Some(2.0)
  {
    var xs := [1.0, 2.0, 3.0];
    assert Sorted(xs);
    SortedMedian(xs);
    assert Middle(xs) == Some(2.0);
  }

  /** An already sorted list is its own sorted order. */
  lemma SortedMedian(xs: seq<real>)
    requires Sorted(xs)
    ensures Median(xs) == Middle(xs)
  {
    SortedUnique(Sort(xs), xs);
  }
}
