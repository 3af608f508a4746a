/** Raster statistics of `src/processor.py`: the summary of a raster's valid
    cells (numpy min, max, mean, median, std and the 25th/75th percentiles)
    and the Pearson correlation of two rasters over the pixels valid in both.
    `sqrt` is a parameter that is only known to be the non-negative square root. */
module RasterStatistics {
  import opened Wrappers

  /** `sqrt` returns the non-negative square root of every non-negative real. */
  ghost predicate IsSqrt(sqrt: real -> real)
  {
    && sqrt(0.0) == 0.0
    && forall x :: 0.0 <= x ==> 0.0 <= sqrt(x) && sqrt(x) * sqrt(x) == x
  }

  /** The root of a non-negative value: non-negative, squares back, and zero
      exactly at zero. */
  lemma SqrtZeroIff(sqrt: real -> real, x: real)
    requires IsSqrt(sqrt) && 0.0 <= x
    ensures 0.0 <= sqrt(x) && sqrt(x) * sqrt(x) == x
    ensures sqrt(x) == 0.0 <==> x == 0.0
  {
  }

  /** Multiplying by a non-negative factor preserves order. */
  lemma MulMonotone(a: real, x: real, y: real)
    requires 0.0 <= a && x <= y
    ensures x * a <= y * a && a * x <= a * y
  {
    assert y * a - x * a == (y - x) * a;
  }

  // ---------------------------------------------------------------- valid values

  /** `values[~np.isnan(values)]`: the non-missing values, in order. */
  function ValidValues(cells: seq<Option<real>>): (vs: seq<real>)
    ensures |vs| <= |cells|
  {
    if cells == [] then []
    else if cells[0].Some? then [cells[0].value] + ValidValues(cells[1..])
    else ValidValues(cells[1..])
  }

  /** A value is kept exactly when some cell holds it. */
  lemma {:induction false} ValidValuesMembers(cells: seq<Option<real>>, x: real)
    ensures x in ValidValues(cells) <==> Some(x) in cells
  {
    if cells != [] {
      ValidValuesMembers(cells[1..], x);
      assert cells == [cells[0]] + cells[1..];
    }
  }

  /** Filtering distributes over concatenation. */
  lemma {:induction false} ValidValuesAppend(a: seq<Option<real>>, b: seq<Option<real>>)
    ensures ValidValues(a + b) == ValidValues(a) + ValidValues(b)
  {
    if a == [] {
      assert a + b == b;
    } else {
      assert (a + b)[1..] == a[1..] + b;
      ValidValuesAppend(a[1..], b);
    }
  }

  /** A missing cell, wherever it is, never changes the valid values. */
  lemma MissingCellIgnored(cells: seq<Option<real>>, k: nat)
    requires k <= |cells|
    ensures ValidValues(cells[..k] + [None] + cells[k..]) == ValidValues(cells)
  {
    var front, back := cells[..k], cells[k..];
    ValidValuesAppend(front + [None], back);
    ValidValuesAppend(front, [None]);
    assert ValidValues([None]) == [];
    assert ValidValues(front + [None]) == ValidValues(front);
    ValidValuesAppend(front, back);
    assert front + back == cells;
  }

  // ---------------------------------------------------------------- min, max, mean

  /** numpy `min` of a non-empty sequence. */
  function Min(s: seq<real>): (m: real)
    requires |s| > 0
    ensures m in s && forall i :: 0 <= i < |s| ==> m <= s[i]
  {
    if |s| == 1 then s[0]
    else
      var rest := Min(s[1..]);
      if s[0] <= rest then s[0] else rest
  }

  /** numpy `max` of a non-empty sequence. */
  function Max(s: seq<real>): (m: real)
    requires |s| > 0
    ensures m in s && forall i :: 0 <= i < |s| ==> s[i] <= m
  {
    if |s| == 1 then s[0]
    else
      var rest := Max(s[1..]);
      if s[0] >= rest then s[0] else rest
  }

  function Sum(s: seq<real>): real
  {
    if s == [] then 0.0 else s[0] + Sum(s[1..])
  }

  /** A sum of n values lying in [lo, hi] lies in [n * lo, n * hi]. */
  lemma {:induction false} SumBetween(s: seq<real>, lo: real, hi: real)
    requires forall i :: 0 <= i < |s| ==> lo <= s[i] <= hi
    ensures |s| as real * lo <= Sum(s) <= |s| as real * hi
  {
    if s != [] {
      SumBetween(s[1..], lo, hi);
      assert |s| as real * lo == lo + (|s| - 1) as real * lo;
      assert |s| as real * hi == hi + (|s| - 1) as real * hi;
    }
  }

  /** numpy `mean`. */
  function Mean(s: seq<real>): real
    requires |s| > 0
  {
    Sum(s) / |s| as real
  }

  /** Dividing by a positive count keeps a value's position between bounds. */
  lemma DivideBetween(total: real, n: real, lo: real, hi: real)
    requires n > 0.0 && n * lo <= total <= n * hi
    ensures lo <= total / n <= hi
  {
    var q := total / n;
    assert q * n == total;
  }

  /** The mean of values lying in [lo, hi] lies in [lo, hi]. */
  lemma MeanBetween(s: seq<real>, lo: real, hi: real)
    requires |s| > 0 && forall i :: 0 <= i < |s| ==> lo <= s[i] <= hi
    ensures lo <= Mean(s) <= hi
  {
    SumBetween(s, lo, hi);
    DivideBetween(Sum(s), |s| as real, lo, hi);
  }

  /** The mean lies between the minimum and the maximum. */
  lemma MeanBetweenMinMax(s: seq<real>)
    requires |s| > 0
    ensures Min(s) <= Mean(s) <= Max(s)
  {
    MeanBetween(s, Min(s), Max(s));
  }

  /** Sum of (x[i] - mx) * (y[i] - my): n times the population covariance. */
  function SumOfProducts(x: seq<real>, y: seq<real>, mx: real, my: real): real
    requires |x| == |y|
  {
    if x == [] then 0.0 else (x[0] - mx) * (y[0] - my) + SumOfProducts(x[1..], y[1..], mx, my)
  }

  /** Population covariance (numpy's `cov` differs only by a factor that the
      correlation cancels). */
  function Covariance(x: seq<real>, y: seq<real>): real
    requires |x| == |y| > 0
  {
    SumOfProducts(x, y, Mean(x), Mean(y)) / |x| as real
  }

  /** numpy `var` (ddof = 0): the covariance of a series with itself. */
  function Variance(s: seq<real>): real
    requires |s| > 0
  {
    Covariance(s, s)
  }

  lemma {:induction false} SumOfSquaresNonNegative(s: seq<real>, m: real)
    ensures SumOfProducts(s, s, m, m) >= 0.0
  {
    if s != [] {
      SumOfSquaresNonNegative(s[1..], m);
      assert (s[0] - m) * (s[0] - m) >= 0.0;
    }
  }

  lemma VarianceNonNegative(s: seq<real>)
    requires |s| > 0
    ensures Variance(s) >= 0.0
  {
    SumOfSquaresNonNegative(s, Mean(s));
  }

  lemma {:induction false} SumOfProductsSymmetric(x: seq<real>, y: seq<real>, mx: real, my: real)
    requires |x| == |y|
    ensures SumOfProducts(x, y, mx, my) == SumOfProducts(y, x, my, mx)
  {
    if x != [] {
      SumOfProductsSymmetric(x[1..], y[1..], mx, my);
      assert (x[0] - mx) * (y[0] - my) == (y[0] - my) * (x[0] - mx);
    }
  }

  /** The covariance does not depend on the order of its two series. */
  lemma CovarianceSymmetric(x: seq<real>, y: seq<real>)
    requires |x| == |y| > 0
    ensures Covariance(x, y) == Covariance(y, x)
  {
    SumOfProductsSymmetric(x, y, Mean(x), Mean(y));
  }

  lemma {:induction false} SumConstant(s: seq<real>, c: real)
    requires forall i :: 0 <= i < |s| ==> s[i] == c
    ensures Sum(s) == |s| as real * c
  {
    if s != [] {
      SumConstant(s[1..], c);
    }
  }

  lemma {:induction false} SumOfSquaresAtValue(s: seq<real>, c: real)
    requires forall i :: 0 <= i < |s| ==> s[i] == c
    ensures SumOfProducts(s, s, c, c) == 0.0
  {
    if s != [] {
      SumOfSquaresAtValue(s[1..], c);
    }
  }

  /** A constant series has zero variance. */
  lemma ConstantHasZeroVariance(s: seq<real>)
    requires |s| > 0 && forall i :: 0 <= i < |s| ==> s[i] == s[0]
    ensures Variance(s) == 0.0
  {
    SumConstant(s, s[0]);
    assert Mean(s) == s[0];
    SumOfSquaresAtValue(s, s[0]);
  }

  function Square(x: real): real
  {
    x * x
  }

  /** A square is never negative, and it is zero only at zero. */
  lemma SquareZero(x: real)
    ensures Square(x) >= 0.0
    ensures Square(x) == 0.0 <==> x == 0.0
  {
    var y := if x < 0.0 then -x else x;
    assert Square(x) == y * y;
    MulMonotone(y, 0.0, y);
    if x != 0.0 {
      assert (y * y) / y == y;
    }
  }

  /** When the squared deviations from `m` sum to zero, every value is `m`. */
  lemma {:induction false} SumOfSquaresZero(s: seq<real>, m: real, k: nat)
    requires k < |s| && SumOfProducts(s, s, m, m) == 0.0
    ensures s[k] == m
  {
    SumOfSquaresNonNegative(s[1..], m);
    SquareZero(s[0] - m);
    assert (s[0] - m) * (s[0] - m) == Square(s[0] - m);
    if k > 0 {
      SumOfSquaresZero(s[1..], m, k - 1);
    }
  }

  /** A series with two different values has a positive variance. */
  lemma NonConstantHasPositiveVariance(s: seq<real>, i: nat, j: nat)
    requires i < |s| && j < |s| && s[i] != s[j]
    ensures Variance(s) > 0.0
  {
    VarianceNonNegative(s);
    var m := Mean(s);
    var total := SumOfProducts(s, s, m, m);
    if Variance(s) == 0.0 {
      assert total == Variance(s) * |s| as real;
      SumOfSquaresZero(s, m, i);
      SumOfSquaresZero(s, m, j);
      assert false;
    }
  }

  /** The variance is zero exactly when every value equals the first. */
  lemma VarianceZeroIff(s: seq<real>)
    requires |s| > 0
    ensures Variance(s) == 0.0 <==> forall i :: 0 <= i < |s| ==> s[i] == s[0]
  {
    if forall i :: 0 <= i < |s| ==> s[i] == s[0] {
      ConstantHasZeroVariance(s);
    } else {
      var i :| 0 <= i < |s| && s[i] != s[0];
      NonConstantHasPositiveVariance(s, i, 0);
    }
  }

  // ---------------------------------------------------------------- sorting, percentiles

  /** Ascending order, one neighbouring pair at a time. */
  predicate SortedAsc(s: seq<real>)
  {
    |s| <= 1 || (s[0] <= s[1] && SortedAsc(s[1..]))
  }

  /** Any two positions of a sorted sequence are in order. */
  lemma {:induction false} SortedAt(s: seq<real>, i: nat, j: nat)
    requires SortedAsc(s) && i <= j < |s|
    ensures s[i] <= s[j]
  {
    if 0 < i {
      SortedAt(s[1..], i - 1, j - 1);
    } else if 0 < j {
      SortedAt(s[1..], 0, j - 1);
    }
  }

  /** A sorted sequence stays sorted under a head no larger than its first element. */
  lemma SortedCons(h: real, t: seq<real>)
    requires SortedAsc(t) && (t == [] || h <= t[0])
    ensures SortedAsc([h] + t)
  {
    assert ([h] + t)[1..] == t;
  }

  /** Dropping the head keeps a sequence sorted. */
  lemma SortedTail(s: seq<real>)
    requires SortedAsc(s) && |s| > 0
    ensures SortedAsc(s[1..])
  {
  }

  /** The first two elements of a sorted sequence are in order. */
  lemma SortedHead(s: seq<real>)
    requires SortedAsc(s)
    ensures |s| > 1 ==> s[0] <= s[1]
  {
  }

  /** The multiset of a non-empty sequence is its head plus its tail. */
  lemma MultisetCons(s: seq<real>)
    requires |s| > 0
    ensures multiset(s) == multiset{s[0]} + multiset(s[1..])
  {
    assert s == [s[0]] + s[1..];
  }

  /** Insertion into a sorted sequence: sorted, one more element, and its head
      is the smaller of `x` and the old head. */
  function Insert(x: real, s: seq<real>): (r: seq<real>)
    requires SortedAsc(s)
    ensures SortedAsc(r) && multiset(r) == multiset(s) + multiset{x}
    ensures |r| == |s| + 1
    ensures r[0] == (if s == [] || x <= s[0] then x else s[0])
  {
    if s == [] || x <= s[0] then
      SortedCons(x, s);
      [x] + s
    else
      SortedTail(s);
      var rest := Insert(x, s[1..]);
      InsertBehindHead(x, s, rest);
      [s[0]] + rest
  }

  /** The step of Insert that keeps the old head in front: putting it before
      the insertion into the tail gives a sorted sequence of the right
      elements. */
  lemma InsertBehindHead(x: real, s: seq<real>, rest: seq<real>)
    requires SortedAsc(s) && s != [] && s[0] < x
    requires SortedAsc(rest) && multiset(rest) == multiset(s[1..]) + multiset{x}
    requires |rest| == |s| && rest[0] == (if s[1..] == [] || x <= s[1..][0] then x else s[1..][0])
    ensures SortedAsc([s[0]] + rest)
    ensures multiset([s[0]] + rest) == multiset(s) + multiset{x}
  {
    SortedHead(s);
    SortedCons(s[0], rest);
    MultisetCons(s);
    assert multiset([s[0]] + rest) == multiset{s[0]} + multiset(rest);
  }

  /** The valid values in ascending order (what numpy sorts or partitions by). */
  function SortAsc(s: seq<real>): (r: seq<real>)
    ensures SortedAsc(r) && multiset(r) == multiset(s) && |r| == |s|
  {
    if s == [] then []
    else
      assert s == [s[0]] + s[1..];
      Insert(s[0], SortAsc(s[1..]))
  }

  /** Sequences with equal multisets have the same members. */
  lemma MultisetMember(a: seq<real>, b: seq<real>, x: real)
    requires multiset(a) == multiset(b) && x in a
    ensures x in b
  {
    assert x in multiset(a);
  }

  /** Every member of a sorted sequence lies between its two ends. */
  lemma SortedBounds(r: seq<real>, x: real)
    requires SortedAsc(r) && x in r
    ensures r[0] <= x <= r[|r| - 1]
  {
    var k :| 0 <= k < |r| && r[k] == x;
    SortedAt(r, 0, k);
    SortedAt(r, k, |r| - 1);
  }

  /** Every member of a sequence lies between its minimum and its maximum. */
  lemma MinMaxBounds(s: seq<real>, x: real)
    requires x in s
    ensures Min(s) <= x <= Max(s)
  {
    var i :| 0 <= i < |s| && s[i] == x;
  }

  /** The smallest and largest of a sequence are the ends of its sorted copy. */
  lemma SortedEnds(s: seq<real>)
    requires |s| > 0
    ensures SortAsc(s)[0] == Min(s) && SortAsc(s)[|s| - 1] == Max(s)
  {
    var r := SortAsc(s);
    var first, last := r[0], r[|r| - 1];
    MultisetMember(r, s, first);
    MultisetMember(r, s, last);
    MinMaxBounds(s, first);
    MinMaxBounds(s, last);
    MultisetMember(s, r, Min(s));
    MultisetMember(s, r, Max(s));
    SortedBounds(r, Min(s));
    SortedBounds(r, Max(s));
  }

  /** numpy `percentile` with its default 'linear' method, at an integer
      percentage p in [0, 100], over values sorted ascending: the virtual
      index (n - 1) * p / 100 is split into its integer part and its
      fraction, and the values at that position and the next are
      interpolated. */
  function Percentile(s: seq<real>, p: nat): real
    requires SortedAsc(s) && |s| > 0 && p <= 100
  {
    var lo := RankIndex(|s|, p);
    if lo + 1 < |s| then Interpolate(s[lo], s[lo + 1], RankFraction(|s|, p)) else s[lo]
  }

  /** The point a fraction `t` of the way from `a` to `b`. */
  function Interpolate(a: real, b: real, t: real): real
  {
    a + t * (b - a)
  }

  /** 100 times the virtual index: (n - 1) * p, whose integer part after
      division by 100 is a valid position. */
  function ScaledRank(n: nat, p: nat): (m: nat)
    requires n > 0 && p <= 100
    ensures m <= (n - 1) * 100 && m / 100 < n
  {
    var a: nat := n - 1;
    MulMonotoneNat(a, p, 100);
    a * p
  }

  /** The integer part of the virtual index: a position in the sequence. */
  function RankIndex(n: nat, p: nat): (lo: nat)
    requires n > 0 && p <= 100
    ensures lo < n
  {
    ScaledRank(n, p) / 100
  }

  /** The fractional part of the virtual index, in [0, 1). */
  function RankFraction(n: nat, p: nat): (t: real)
    requires n > 0 && p <= 100
    ensures 0.0 <= t < 1.0
  {
    (ScaledRank(n, p) % 100) as real / 100.0
  }

  /** A larger percentage never moves the virtual index back. */
  lemma RankMonotone(n: nat, p: nat, q: nat)
    requires n > 0 && p <= q <= 100
    ensures RankIndex(n, p) <= RankIndex(n, q)
    ensures RankIndex(n, p) == RankIndex(n, q) ==> RankFraction(n, p) <= RankFraction(n, q)
  {
    var mp, mq := ScaledRank(n, p), ScaledRank(n, q);
    MulMonotoneNat(n - 1, p, q);
    assert mp <= mq;
    var lp, lq := mp / 100, mq / 100;
    var rp, rq := mp % 100, mq % 100;
    assert mp == 100 * lp + rp && mq == 100 * lq + rq;
    if lp == lq {
      assert rp <= rq;
    }
  }

  lemma {:induction false} MulMonotoneNat(a: nat, x: nat, y: nat)
    requires x <= y
    ensures a * x <= a * y
  {
    if a > 0 {
      MulMonotoneNat(a - 1, x, y);
      assert a * x == (a - 1) * x + x && a * y == (a - 1) * y + y;
    }
  }

  lemma Lerp(a: real, b: real, t: real)
    requires a <= b && 0.0 <= t <= 1.0
    ensures a <= Interpolate(a, b, t) <= b
  {
    MulMonotone(b - a, t, 1.0);
    assert t * (b - a) <= 1.0 * (b - a);
    MulMonotone(b - a, 0.0, t);
    assert 0.0 * (b - a) <= t * (b - a);
  }

  /** A percentile lies between the two values its virtual index falls
      between, hence between the smallest and the largest value. */
  lemma PercentileBetween(s: seq<real>, p: nat)
    requires SortedAsc(s) && |s| > 0 && p <= 100
    ensures var lo := RankIndex(|s|, p);
      s[lo] <= Percentile(s, p) <= s[if lo + 1 < |s| then lo + 1 else lo]
    ensures s[0] <= Percentile(s, p) <= s[|s| - 1]
  {
    var lo := RankIndex(|s|, p);
    SortedAt(s, 0, lo);
    if lo + 1 < |s| {
      SortedAt(s, lo, lo + 1);
      SortedAt(s, lo + 1, |s| - 1);
      Lerp(s[lo], s[lo + 1], RankFraction(|s|, p));
    } else {
      assert Percentile(s, p) == s[lo];
      SortedAt(s, lo, |s| - 1);
    }
  }

  lemma LerpMonotone(a: real, b: real, t1: real, t2: real)
    requires a <= b && t1 <= t2
    ensures Interpolate(a, b, t1) <= Interpolate(a, b, t2)
  {
    MulMonotone(b - a, t1, t2);
  }

  /** Percentiles are monotone: p <= q gives percentile(p) <= percentile(q). */
  lemma PercentileMonotone(s: seq<real>, p: nat, q: nat)
    requires SortedAsc(s) && |s| > 0 && p <= q <= 100
    ensures Percentile(s, p) <= Percentile(s, q)
  {
    var n := |s|;
    RankMonotone(n, p, q);
    var lp, lq := RankIndex(n, p), RankIndex(n, q);
    PercentileBetween(s, p);
    PercentileBetween(s, q);
    if lp < lq {
      SortedAt(s, lp + 1, lq);
    } else if lp + 1 < n {
      SortedAt(s, lp, lp + 1);
      LerpMonotone(s[lp], s[lp + 1], RankFraction(n, p), RankFraction(n, q));
    }
  }

  /** The ends of the percentile scale are the smallest and largest values. */
  lemma PercentileEnds(s: seq<real>)
    requires SortedAsc(s) && |s| > 0
    ensures Percentile(s, 0) == s[0] && Percentile(s, 100) == s[|s| - 1]
  {
    assert ScaledRank(|s|, 0) == 0;
    assert ScaledRank(|s|, 100) == (|s| - 1) * 100;
  }

  /** numpy `median` over sorted values: the middle value, or the mean of the
      two middle values when there is an even number of them. */
  function Median(s: seq<real>): real
    requires |s| > 0
  {
    var n := |s|;
    if n % 2 == 1 then s[n / 2] else (s[n / 2 - 1] + s[n / 2]) / 2.0
  }

  /** numpy's median agrees with its 50th percentile. */
  lemma MedianIsPercentile50(s: seq<real>)
    requires SortedAsc(s) && |s| > 0
    ensures Median(s) == Percentile(s, 50)
  {
    var n := |s|;
    var m := ScaledRank(n, 50);
    assert m == (n - 1) * 50;
    if n % 2 == 1 {
      assert m / 100 == n / 2 && m % 100 == 0;
      assert RankIndex(n, 50) == n / 2 && RankFraction(n, 50) == 0.0;
    } else {
      assert m / 100 == n / 2 - 1 && m % 100 == 50;
      assert RankIndex(n, 50) == n / 2 - 1 && RankFraction(n, 50) == 0.5;
    }
  }

  // ---------------------------------------------------------------- summary

  /** The seven fields of calculate_statistics. */
  datatype StatSummary = StatSummary(min: real, max: real, mean: real, median: real,
                                     std: real, p25: real, p75: real)

  const AllZero := StatSummary(0.0, 0.0, 0.0, 0.0, 0.0, 0.0, 0.0)

  /** The order facts of a summary of non-empty values: the sorted-value
      fields lie in order between the minimum and the maximum, and so does the
      mean. */
  lemma SummaryOrdered(vs: seq<real>)
    requires |vs| > 0
    ensures var sorted := SortAsc(vs);
      && Min(vs) <= Percentile(sorted, 25) <= Median(sorted)
      && Median(sorted) <= Percentile(sorted, 75) <= Max(vs)
      && Min(vs) <= Mean(vs) <= Max(vs)
  {
    var sorted := SortAsc(vs);
    SortedEnds(vs);
    PercentileBetween(sorted, 25);
    PercentileBetween(sorted, 75);
    PercentileMonotone(sorted, 25, 50);
    PercentileMonotone(sorted, 50, 75);
    MedianIsPercentile50(sorted);
    MeanBetweenMinMax(vs);
  }

  /** calculate_statistics over the flattened cells: all zeros when no cell is
      valid; otherwise the numpy summary of the valid values, which is ordered
      min <= p25 <= median <= p75 <= max, has its mean in [min, max] and a
      std that is the non-negative root of the variance. */
  function Summarize(cells: seq<Option<real>>, sqrt: real -> real): (st: StatSummary)
    requires IsSqrt(sqrt)
    ensures ValidValues(cells) == [] ==> st == AllZero
    ensures ValidValues(cells) != [] ==>
      var vs := ValidValues(cells);
      && st.min == Min(vs) && st.max == Max(vs) && st.mean == Mean(vs)
      && st.median == Median(SortAsc(vs))
      && st.p25 == Percentile(SortAsc(vs), 25) && st.p75 == Percentile(SortAsc(vs), 75)
      && st.std == sqrt(Variance(vs))
    ensures st.min <= st.p25 <= st.median <= st.p75 <= st.max
    ensures st.min <= st.mean <= st.max && st.std >= 0.0
  {
    var vs := ValidValues(cells);
    if vs == [] then AllZero
    else
      var sorted := SortAsc(vs);
      SummaryOrdered(vs);
      VarianceNonNegative(vs);
      SqrtZeroIff(sqrt, Variance(vs));
      StatSummary(Min(vs), Max(vs), Mean(vs), Median(sorted), sqrt(Variance(vs)),
                  Percentile(sorted, 25), Percentile(sorted, 75))
  }

  /** The summary's std squares back to the population variance of the valid values. */
  lemma SummaryStdSquared(cells: seq<Option<real>>, sqrt: real -> real)
    requires IsSqrt(sqrt) && ValidValues(cells) != []
    ensures var st := Summarize(cells, sqrt);
      st.std >= 0.0 && Square(st.std) == Variance(ValidValues(cells))
  {
    var st := Summarize(cells, sqrt);
    var vs := ValidValues(cells);
    VarianceNonNegative(vs);
    SqrtZeroIff(sqrt, Variance(vs));
    assert st.std == sqrt(Variance(vs));
    assert Square(sqrt(Variance(vs))) == Variance(vs);
  }

  /** The summary sees only valid values: inserting a missing cell anywhere
      changes no field. */
  lemma SummaryIgnoresMissing(cells: seq<Option<real>>, k: nat, sqrt: real -> real)
    requires IsSqrt(sqrt) && k <= |cells|
    ensures Summarize(cells[..k] + [None] + cells[k..], sqrt) == Summarize(cells, sqrt)
  {
    MissingCellIgnored(cells, k);
  }

  // ---------------------------------------------------------------- correlation

  /** `~(np.isnan(a) | np.isnan(b))`: true where both cells are valid. */
  function PairMask(a: seq<Option<real>>, b: seq<Option<real>>): (m: seq<bool>)
    requires |a| == |b|
    ensures |m| == |a| && forall i :: 0 <= i < |m| ==> (m[i] <==> a[i].Some? && b[i].Some?)
  {
    seq(|a|, i requires 0 <= i < |a| => a[i].Some? && b[i].Some?)
  }

  /** Boolean indexing `a[mask]`: the values at the positions the mask keeps;
      there are as many as the mask keeps, whichever array is indexed, so the
      two paired series have equal length. */
  function Select(a: seq<Option<real>>, mask: seq<bool>): (r: seq<real>)
    requires |a| == |mask| && forall i :: 0 <= i < |a| ==> mask[i] ==> a[i].Some?
    ensures |r| == CountTrue(mask)
    ensures r == ValidValues(MaskCells(a, mask))
  {
    if a == [] then []
    else
      assert MaskCells(a, mask)[1..] == MaskCells(a[1..], mask[1..]);
      if mask[0] then [a[0].value] + Select(a[1..], mask[1..])
      else Select(a[1..], mask[1..])
  }

  /** The cells the mask keeps, with every other cell made missing: the
      values selected from it are then its valid values, in index order. */
  function MaskCells(a: seq<Option<real>>, mask: seq<bool>): (m: seq<Option<real>>)
    requires |a| == |mask|
    ensures |m| == |a|
    ensures forall i :: 0 <= i < |m| ==> m[i] == if mask[i] then a[i] else None
  {
    seq(|a|, i requires 0 <= i < |a| => if mask[i] then a[i] else None)
  }

  function CountTrue(mask: seq<bool>): nat
  {
    if mask == [] then 0 else (if mask[0] then 1 else 0) + CountTrue(mask[1..])
  }

  /** The pairing is symmetric in its two rasters. */
  lemma PairMaskSymmetric(a: seq<Option<real>>, b: seq<Option<real>>)
    requires |a| == |b|
    ensures PairMask(a, b) == PairMask(b, a)
  {
  }

  /** Clip to [lo, hi], as numpy's corrcoef does with its coefficients. */
  function Clip(x: real, lo: real, hi: real): (r: real)
    requires lo <= hi
    ensures lo <= r <= hi && (lo <= x <= hi ==> r == x)
  {
    if x < lo then lo else if x > hi then hi else x
  }

  /** The coefficient of a covariance over two positive standard deviations,
      clipped to [-1, 1] as numpy's corrcoef does. */
  function Coefficient(cov: real, sx: real, sy: real): (c: real)
    requires sx > 0.0 && sy > 0.0
    ensures -1.0 <= c <= 1.0
  {
    assert sx * sy > 0.0 by {
      MulMonotone(sy, 0.0, sx);
      assert sx * sy != 0.0;
    }
    Clip(cov / (sx * sy), -1.0, 1.0)
  }

  /** A variance over its own root twice is exactly 1. */
  lemma CoefficientSelf(v: real, s: real)
    requires s > 0.0 && s * s == v
    ensures Coefficient(v, s, s) == 1.0
  {
    SquareZero(s);
    assert s * s == Square(s) != 0.0;
  }

  /** `np.corrcoef(x, y)[0, 1]`: the covariance divided by both standard
      deviations, clipped to [-1, 1]; NaN (None) when either series has zero
      variance. */
  function Pearson(x: seq<real>, y: seq<real>, sqrt: real -> real): (r: Option<real>)
    requires |x| == |y| > 0 && IsSqrt(sqrt)
    ensures r.None? <==> Variance(x) == 0.0 || Variance(y) == 0.0
    ensures r.Some? ==> -1.0 <= r.value <= 1.0
    ensures r.Some? ==>
      && sqrt(Variance(x)) > 0.0 && sqrt(Variance(y)) > 0.0
      && r.value == Coefficient(Covariance(x, y), sqrt(Variance(x)), sqrt(Variance(y)))
  {
    VarianceNonNegative(x);
    VarianceNonNegative(y);
    SqrtZeroIff(sqrt, Variance(x));
    SqrtZeroIff(sqrt, Variance(y));
    var sx, sy := sqrt(Variance(x)), sqrt(Variance(y));
    if sx == 0.0 || sy == 0.0 then None
    else Some(Coefficient(Covariance(x, y), sx, sy))
  }

  lemma PearsonSymmetric(x: seq<real>, y: seq<real>, sqrt: real -> real)
    requires |x| == |y| > 0 && IsSqrt(sqrt)
    ensures Pearson(x, y, sqrt) == Pearson(y, x, sqrt)
  {
    CovarianceSymmetric(x, y);
    var sx, sy := sqrt(Variance(x)), sqrt(Variance(y));
    if Pearson(x, y, sqrt).Some? {
      assert sx * sy == sy * sx;
    }
  }

  /** Pearson's coefficient is NaN exactly when one of the series is constant. */
  lemma PearsonNaNIffConstant(x: seq<real>, y: seq<real>, sqrt: real -> real)
    requires |x| == |y| > 0 && IsSqrt(sqrt)
    ensures Pearson(x, y, sqrt).None? <==>
      (forall i :: 0 <= i < |x| ==> x[i] == x[0]) || (forall i :: 0 <= i < |y| ==> y[i] == y[0])
  {
    VarianceZeroIff(x);
    VarianceZeroIff(y);
  }

  /** A series with two different values correlates perfectly with itself. */
  lemma PearsonSelf(x: seq<real>, sqrt: real -> real, i: nat, j: nat)
    requires IsSqrt(sqrt) && i < |x| && j < |x| && x[i] != x[j]
    ensures Pearson(x, x, sqrt) == Some(1.0)
  {
    NonConstantHasPositiveVariance(x, i, j);
    var v := Variance(x);
    SqrtZeroIff(sqrt, v);
    assert Covariance(x, x) == v;
    CoefficientSelf(v, sqrt(v));
  }

  /** lst_ndvi_correlation over two flattened rasters of one grid: pixels valid
      in both are paired; fewer than 2 pairs give 0.0; otherwise Pearson's
      coefficient, in [-1, 1], or NaN (None) for a zero-variance series. */
  function Correlate(a: seq<Option<real>>, b: seq<Option<real>>, sqrt: real -> real): (r: Option<real>)
    requires |a| == |b| && IsSqrt(sqrt)
    ensures CountTrue(PairMask(a, b)) < 2 ==> r == Some(0.0)
    ensures CountTrue(PairMask(a, b)) >= 2 ==>
      r == Pearson(Select(a, PairMask(a, b)), Select(b, PairMask(a, b)), sqrt)
    ensures r.Some? ==> -1.0 <= r.value <= 1.0
  {
    var mask := PairMask(a, b);
    var xs, ys := Select(a, mask), Select(b, mask);
    if |xs| < 2 then Some(0.0) else Pearson(xs, ys, sqrt)
  }

  /** The correlation is symmetric in its two rasters. */
  lemma CorrelateSymmetric(a: seq<Option<real>>, b: seq<Option<real>>, sqrt: real -> real)
    requires |a| == |b| && IsSqrt(sqrt)
    ensures Correlate(a, b, sqrt) == Correlate(b, a, sqrt)
  {
    PairMaskSymmetric(a, b);
    var mask := PairMask(a, b);
    if CountTrue(mask) >= 2 {
      PearsonSymmetric(Select(a, mask), Select(b, mask), sqrt);
    }
  }

  /** A raster correlated with itself: 1.0 when two of its valid cells hold
      different values. */
  lemma CorrelateSelf(a: seq<Option<real>>, sqrt: real -> real, i: nat, j: nat)
    requires IsSqrt(sqrt) && i < |ValidValues(a)| && j < |ValidValues(a)|
    requires ValidValues(a)[i] != ValidValues(a)[j]
    ensures Correlate(a, a, sqrt) == Some(1.0)
  {
    var mask := PairMask(a, a);
    SelectAllValid(a, mask);
    PearsonSelf(ValidValues(a), sqrt, i, j);
  }

  /** Masking a raster by its own validity selects exactly its valid values. */
  lemma {:induction false} SelectAllValid(a: seq<Option<real>>, mask: seq<bool>)
    requires |a| == |mask| && forall i :: 0 <= i < |a| ==> (mask[i] <==> a[i].Some?)
    ensures Select(a, mask) == ValidValues(a)
  {
    if a != [] {
      SelectAllValid(a[1..], mask[1..]);
    }
  }
}
