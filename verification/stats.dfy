/** Order statistics over the non-null values of a numeric column: sorting,
    linear-interpolation quantiles (Hyndman-Fan type 7, the numpy/pandas
    default), median, minimum, maximum and mean, all over exact reals. */
module Stats {

  predicate Sorted(s: seq<real>) {
    forall i, j :: 0 <= i < j < |s| ==> s[i] <= s[j]
  }

  function Insert(x: real, s: seq<real>): (r: seq<real>)
    requires Sorted(s)
    ensures Sorted(r)
    ensures multiset(r) == multiset(s) + multiset{x}
  {
    if |s| == 0 then [x]
    else if x <= s[0] then [x] + s
    else
      var rest := Insert(x, s[1..]);
      assert s == [s[0]] + s[1..];
      HeadBoundsTail(s, x);
      BoundOfMultiset(s[0], rest, multiset(s[1..]) + multiset{x});
      PrependSorted(s[0], rest);
      [s[0]] + rest
  }

  lemma HeadBoundsTail(s: seq<real>, x: real)
    requires Sorted(s) && |s| > 0 && s[0] <= x
    ensures forall e :: e in multiset(s[1..]) + multiset{x} ==> s[0] <= e
  {
    forall e | e in multiset(s[1..]) + multiset{x} ensures s[0] <= e {
      if e != x {
        assert e in s[1..];
        var j :| 0 <= j < |s[1..]| && s[1..][j] == e;
        assert s[j + 1] == e;
      }
    }
  }

  lemma BoundOfMultiset(b: real, r: seq<real>, m: multiset<real>)
    requires multiset(r) == m && forall e :: e in m ==> b <= e
    ensures forall k :: 0 <= k < |r| ==> b <= r[k]
  {
    forall k | 0 <= k < |r| ensures b <= r[k] {
      assert r[k] in multiset(r);
    }
  }

  lemma PrependSorted(b: real, r: seq<real>)
    requires Sorted(r) && forall k :: 0 <= k < |r| ==> b <= r[k]
    ensures Sorted([b] + r)
  {
    var t := [b] + r;
    forall i, j | 0 <= i < j < |t| ensures t[i] <= t[j] {
      assert t[j] == r[j - 1];
      if i > 0 { assert t[i] == r[i - 1]; }
    }
  }

  /** The ascending rearrangement of `s`. */
  function Sort(s: seq<real>): (r: seq<real>)
    ensures Sorted(r)
    ensures multiset(r) == multiset(s)
    ensures |r| == |s|
  {
    if |s| == 0 then []
    else
      assert s == [s[0]] + s[1..];
      var r := Insert(s[0], Sort(s[1..]));
      assert |r| == |multiset(r)|;
      r
  }

  /** Rank position (n - 1) * p of quantile `p` among n sorted values. */
  function Position(n: nat, p: real): (h: real)
    requires n > 0 && 0.0 <= p <= 1.0
    ensures 0.0 <= h <= (n - 1) as real
  {
    ScaleAtMostOne((n - 1) as real, p);
    (n - 1) as real * p
  }

  lemma ScaleAtMostOne(a: real, p: real)
    requires 0.0 <= a && 0.0 <= p <= 1.0
    ensures 0.0 <= a * p <= a
  {
  }

  lemma PositionMonotone(n: nat, p: real, q: real)
    requires n > 0 && 0.0 <= p <= q <= 1.0
    ensures Position(n, p) <= Position(n, q)
  {
    MulNonneg((n - 1) as real, q - p);
  }

  /** Linear interpolation from `a` (t = 0) to `b` (t = 1). */
  function Lerp(a: real, b: real, t: real): (r: real)
    requires a <= b && 0.0 <= t <= 1.0
    ensures a <= r <= b
  {
    MulNonneg(t, b - a);
    MulNonneg(1.0 - t, b - a);
    a + t * (b - a)
  }

  lemma LerpMonotone(a: real, b: real, t: real, u: real)
    requires a <= b && 0.0 <= t <= u <= 1.0
    ensures Lerp(a, b, t) <= Lerp(a, b, u)
  {
    MulNonneg(u - t, b - a);
  }

  lemma MulNonneg(x: real, y: real)
    requires 0.0 <= x && 0.0 <= y
    ensures 0.0 <= x * y
  {
  }

  /** Quantile `p` of the sorted values by linear interpolation between the
      closest ranks: with h = (n - 1) * p, the value at h between
      s[floor h] and s[floor h + 1]. */
  function Quantile(s: seq<real>, p: real): (r: real)
    requires Sorted(s) && |s| > 0 && 0.0 <= p <= 1.0
    ensures s[0] <= r <= s[|s| - 1]
  {
    var h := Position(|s|, p);
    var lo := h.Floor;
    if lo + 1 < |s| then Lerp(s[lo], s[lo + 1], h - lo as real) else s[lo]
  }

  /** Raising the probability never lowers the quantile. */
  lemma QuantileMonotone(s: seq<real>, p: real, q: real)
    requires Sorted(s) && |s| > 0 && 0.0 <= p <= q <= 1.0
    ensures Quantile(s, p) <= Quantile(s, q)
  {
    var hp, hq := Position(|s|, p), Position(|s|, q);
    PositionMonotone(|s|, p, q);
    var lp, lq := hp.Floor, hq.Floor;
    assert lp <= lq;
    if lp == lq {
      if lp + 1 < |s| {
        LerpMonotone(s[lp], s[lp + 1], hp - lp as real, hq - lq as real);
      }
    } else {
      // Quantile(s, p) <= s[lp + 1] <= s[lq] <= Quantile(s, q)
      assert s[lp + 1] <= s[lq];
    }
  }

  /** numpy's median: the middle value, or the mean of the two middle values. */
  function Median(s: seq<real>): (r: real)
    requires Sorted(s) && |s| > 0
    ensures s[0] <= r <= s[|s| - 1]
  {
    var n := |s|;
    if n % 2 == 1 then s[n / 2] else (s[n / 2 - 1] + s[n / 2]) / 2.0
  }

  /** The median is the 0.5 quantile. */
  lemma MedianIsQuantile(s: seq<real>)
    requires Sorted(s) && |s| > 0
    ensures Median(s) == Quantile(s, 0.5)
  {
    var n := |s|;
    var h := Position(n, 0.5);
    if n % 2 == 1 {
      assert h == ((n - 1) / 2) as real;
      assert h.Floor == n / 2;
    } else {
      assert h == (n / 2 - 1) as real + 0.5;
      assert h.Floor == n / 2 - 1;
      assert Lerp(s[n / 2 - 1], s[n / 2], 0.5) == (s[n / 2 - 1] + s[n / 2]) / 2.0;
    }
  }

  function Sum(s: seq<real>): real {
    if |s| == 0 then 0.0 else s[0] + Sum(s[1..])
  }

  function Mean(s: seq<real>): real
    requires |s| > 0
  {
    Sum(s) / |s| as real
  }

  /** Smallest value: one of the values, and at most every value. */
  function Min(s: seq<real>): (m: real)
    requires |s| > 0
    ensures m in s
    ensures forall i :: 0 <= i < |s| ==> m <= s[i]
  {
    if |s| == 1 then s[0]
    else
      var m := Min(s[1..]);
      assert forall i :: 1 <= i < |s| ==> s[i] == s[1..][i - 1];
      if s[0] <= m then s[0] else m
  }

  /** Largest value: one of the values, and at least every value. */
  function Max(s: seq<real>): (m: real)
    requires |s| > 0
    ensures m in s
    ensures forall i :: 0 <= i < |s| ==> s[i] <= m
  {
    if |s| == 1 then s[0]
    else
      var m := Max(s[1..]);
      assert forall i :: 1 <= i < |s| ==> s[i] == s[1..][i - 1];
      if s[0] >= m then s[0] else m
  }

  lemma {:induction false} SumBounds(s: seq<real>, lo: real, hi: real)
    requires forall i :: 0 <= i < |s| ==> lo <= s[i] <= hi
    ensures |s| as real * lo <= Sum(s) <= |s| as real * hi
  {
    if |s| > 0 {
      SumBounds(s[1..], lo, hi);
    }
  }

  /** The (unrounded) mean lies between the minimum and the maximum. */
  lemma MeanBounds(s: seq<real>)
    requires |s| > 0
    ensures Min(s) <= Mean(s) <= Max(s)
  {
    MeanWithin(s, Min(s), Max(s));
  }

  lemma MeanWithin(s: seq<real>, lo: real, hi: real)
    requires |s| > 0 && forall i :: 0 <= i < |s| ==> lo <= s[i] <= hi
    ensures lo <= Mean(s) <= hi
  {
    SumBounds(s, lo, hi);
    DivideBounds(Sum(s), |s| as real, lo, hi);
  }

  lemma DivideBounds(x: real, n: real, lo: real, hi: real)
    requires n > 0.0 && n * lo <= x <= n * hi
    ensures lo <= x / n <= hi
  {
  }

  /** The first and last sorted values are the extremes of the data. */
  lemma SortedEnds(s: seq<real>)
    requires |s| > 0
    ensures Min(s) <= Sort(s)[0] && Sort(s)[|s| - 1] <= Max(s)
  {
    var r := Sort(s);
    assert r[0] in multiset(r);
    assert r[|r| - 1] in multiset(r);
  }
}
