/** Median and outlier filtering, over the real numbers. */
module Stats {

  predicate Sorted(s: seq<real>) {
    forall i, j | 0 <= i < j < |s| :: s[i] <= s[j]
  }

  function Insert(x: real, s: seq<real>): (r: seq<real>)
    ensures multiset(r) == multiset(s) + multiset{x} && |r| == |s| + 1
  {
    if s == [] || x <= s[0] then [x] + s
    else
      assert s == [s[0]] + s[1..];
      [s[0]] + Insert(x, s[1..])
  }

  function Sort(s: seq<real>): (r: seq<real>)
    ensures multiset(r) == multiset(s) && |r| == |s|
  {
    if s == [] then []
    else
      assert s == s[..|s| - 1] + [s[|s| - 1]];
      Insert(s[|s| - 1], Sort(s[..|s| - 1]))
  }

  lemma {:induction false} InsertSorted(x: real, s: seq<real>)
    requires Sorted(s)
    ensures Sorted(Insert(x, s))
  {
    if s != [] && x > s[0] {
      InsertSorted(x, s[1..]);
      var r := Insert(x, s[1..]);
      forall j | 0 <= j < |r| ensures s[0] <= r[j] {
        assert r[j] in multiset(s[1..]) + multiset{x};
      }
    }
  }

  lemma {:induction false} SortSorts(s: seq<real>)
    ensures Sorted(Sort(s))
  {
    if s != [] {
      SortSorts(s[..|s| - 1]);
      InsertSorted(s[|s| - 1], Sort(s[..|s| - 1]));
    }
  }

  function Abs(x: real): real {
    if x < 0.0 then -x else x
  }

  /** The middle value, or the mean of the two middle ones; 0 for no values. */
  function Median(values: seq<real>): real {
    if values == [] then 0.0
    else
      var s, mid := Sort(values), |values| / 2;
      if |values| % 2 == 0 then (s[mid - 1] + s[mid]) / 2.0 else s[mid]
  }

  function Deviations(values: seq<real>, center: real): (d: seq<real>)
    ensures |d| == |values| && forall i | 0 <= i < |values| :: d[i] == Abs(values[i] - center)
  {
    seq(|values|, i requires 0 <= i < |values| => Abs(values[i] - center))
  }

  /** Median absolute deviation. */
  function Mad(values: seq<real>): real {
    if values == [] then 0.0 else Median(Deviations(values, Median(values)))
  }

  const CONSISTENCY: real := 1.4826

  /** Indices of the values at most so far from the center, in order. */
  function Near(values: seq<real>, center: real, threshold: real): (r: seq<nat>)
    ensures forall i | 0 <= i < |r| :: r[i] < |values| && Abs(values[r[i]] - center) <= threshold
  {
    if values == [] then []
    else
      var n := |values| - 1;
      Near(values[..n], center, threshold) + if Abs(values[n] - center) <= threshold then [n] else []
  }

  function All(n: nat): (r: seq<nat>)
    ensures |r| == n && forall i | 0 <= i < n :: r[i] == i
  {
    seq(n, i => i)
  }

  /** Indices of the inliers: all of them for fewer than three values or no spread. */
  function FilterOutliers(values: seq<real>, k: real): (r: seq<nat>)
    ensures forall i | 0 <= i < |r| :: r[i] < |values|
  {
    if |values| < 3 || Mad(values) == 0.0 then All(|values|)
    else Near(values, Median(values), k * CONSISTENCY * Mad(values))
  }

  function At(values: seq<real>, indices: seq<nat>): (r: seq<real>)
    requires forall i | 0 <= i < |indices| :: indices[i] < |values|
    ensures |r| == |indices| && forall i | 0 <= i < |indices| :: r[i] == values[indices[i]]
  {
    seq(|indices|, i requires 0 <= i < |indices| && indices[i] < |values| => values[indices[i]])
  }

  function RobustMedian(values: seq<real>): real {
    Median(At(values, FilterOutliers(values, 3.0)))
  }

  // ---- The median splits the values ----

  predicate Below(x: real, t: real, strictly: bool) {
    x < t || (x == t && !strictly)
  }

  function Count(s: seq<real>, t: real, strictly: bool): nat {
    if s == [] then 0 else Count(s[..|s| - 1], t, strictly) + if Below(s[|s| - 1], t, strictly) then 1 else 0
  }

  lemma {:induction false} CountConcat(a: seq<real>, b: seq<real>, t: real, strictly: bool)
    ensures Count(a + b, t, strictly) == Count(a, t, strictly) + Count(b, t, strictly)
  {
    if b == [] {
      assert a + b == a;
    } else {
      assert (a + b)[..|a + b| - 1] == a + b[..|b| - 1];
      CountConcat(a, b[..|b| - 1], t, strictly);
    }
  }

  lemma CountOne(x: real, t: real, strictly: bool)
    ensures Count([x], t, strictly) == if Below(x, t, strictly) then 1 else 0
  {
    assert [x][..0] == [];
  }

  lemma {:induction false} CountInsert(x: real, s: seq<real>, t: real, strictly: bool)
    ensures Count(Insert(x, s), t, strictly) == Count(s, t, strictly) + if Below(x, t, strictly) then 1 else 0
  {
    hide Count, Below;
    CountOne(x, t, strictly);
    if s == [] || x <= s[0] {
      CountConcat([x], s, t, strictly);
    } else {
      CountInsert(x, s[1..], t, strictly);
      CountConcat([s[0]], s[1..], t, strictly);
      CountConcat([s[0]], Insert(x, s[1..]), t, strictly);
      assert s == [s[0]] + s[1..];
    }
  }

  /** Sorting does not change how many values are below a bound. */
  lemma {:induction false} CountSort(s: seq<real>, t: real, strictly: bool)
    ensures Count(Sort(s), t, strictly) == Count(s, t, strictly)
  {
    if s != [] {
      CountSort(s[..|s| - 1], t, strictly);
      CountInsert(s[|s| - 1], Sort(s[..|s| - 1]), t, strictly);
    }
  }

  lemma {:induction false} CountAtLeast(s: seq<real>, j: nat, t: real)
    requires Sorted(s) && j < |s| && s[j] <= t
    ensures Count(s, t, false) >= j + 1
    decreases |s|
  {
    var n := |s| - 1;
    if j < n {
      CountAtLeast(s[..n], j, t);
    } else if n > 0 {
      CountAtLeast(s[..n], n - 1, t);
    }
  }

  lemma {:induction false} CountAtMost(s: seq<real>, j: nat, t: real)
    requires Sorted(s) && j <= |s| && (j < |s| ==> t <= s[j])
    ensures Count(s, t, true) <= j
    decreases |s|
  {
    if s != [] {
      var n := |s| - 1;
      CountAtMost(s[..n], if j <= n then j else n, t);
    }
  }

  /** At least half of the values are at most the median, and at most half are less. */
  lemma MedianSplits(values: seq<real>)
    ensures 2 * Count(values, Median(values), false) >= |values|
    ensures 2 * Count(values, Median(values), true) <= |values|
  {
    hide Count, Sort;
    if values != [] {
      var s, n, mid, m := Sort(values), |values|, |values| / 2, Median(values);
      SortSorts(values);
      CountSort(values, m, false);
      CountSort(values, m, true);
      assert n % 2 == 0 ==> s[mid - 1] <= s[mid];
      CountAtLeast(s, if n % 2 == 0 then mid - 1 else mid, m);
      CountAtMost(s, mid, m);
    } else {
      CountNone(Median(values));
    }
  }

  lemma CountNone(t: real)
    ensures Count([], t, true) == 0
  {
  }

  /** The k-th smallest value, counted from 0. */
  predicate IsKth(values: seq<real>, k: nat, x: real) {
    x in values && Count(values, x, true) <= k < Count(values, x, false)
  }

  /** There is only one. */
  lemma KthIsUnique(values: seq<real>, k: nat, x: real, y: real)
    requires IsKth(values, k, x) && IsKth(values, k, y)
    ensures x == y
  {
    if x < y {
      CountBetween(values, x, y);
    } else if y < x {
      CountBetween(values, y, x);
    }
  }

  lemma {:induction false} CountBetween(s: seq<real>, t: real, u: real)
    requires t < u
    ensures Count(s, t, false) <= Count(s, u, true)
  {
    if s != [] {
      CountBetween(s[..|s| - 1], t, u);
    }
  }

  lemma SortedKth(values: seq<real>, k: nat)
    requires k < |values|
    ensures IsKth(values, k, Sort(values)[k])
  {
    hide Count, Sort, Sorted;
    var s := Sort(values);
    SortSorts(values);
    CountSort(values, s[k], true);
    CountSort(values, s[k], false);
    CountAtLeast(s, k, s[k]);
    CountAtMost(s, k, s[k]);
    assert s[k] in multiset(s) && s[k] in multiset(values);
  }

  /** The median is the mean of the two middle values, which are one and the same for an odd number of values. */
  lemma MedianIsMiddle(values: seq<real>) returns (lo: real, hi: real)
    requires values != []
    ensures IsKth(values, (|values| - 1) / 2, lo) && IsKth(values, |values| / 2, hi)
    ensures Median(values) == (lo + hi) / 2.0
  {
    hide Sort, IsKth;
    var n := |values|;
    assert (n - 1) / 2 == if n % 2 == 0 then n / 2 - 1 else n / 2;
    lo, hi := Sort(values)[(n - 1) / 2], Sort(values)[n / 2];
    SortedKth(values, (n - 1) / 2);
    SortedKth(values, n / 2);
    MeanOfSame(hi);
  }

  lemma MeanOfSame(x: real)
    ensures (x + x) / 2.0 == x
  {
  }

  lemma MedianOfNone()
    ensures Median([]) == 0.0
  {
  }

  predicate AllWithin(values: seq<real>, lo: real, hi: real) {
    forall i | 0 <= i < |values| :: lo <= values[i] <= hi
  }

  /** The median lies within any bounds of the values. */
  lemma MedianWithin(values: seq<real>, lo: real, hi: real)
    requires values != [] && AllWithin(values, lo, hi)
    ensures lo <= Median(values) <= hi
  {
    var s := Sort(values);
    forall i | 0 <= i < |s| ensures lo <= s[i] <= hi {
      assert s[i] in multiset(s) && s[i] in values;
    }
  }

  // ---- Outliers ----

  lemma {:induction false} NearCounts(values: seq<real>, center: real, threshold: real)
    ensures |Near(values, center, threshold)| == Count(Deviations(values, center), threshold, false)
  {
    if values != [] {
      var n := |values| - 1;
      NearCounts(values[..n], center, threshold);
      assert Deviations(values, center)[..n] == Deviations(values[..n], center);
    }
  }

  lemma {:induction false} NearExactly(values: seq<real>, center: real, threshold: real)
    ensures forall i: nat :: i in Near(values, center, threshold) <==>
              i < |values| && Abs(values[i] - center) <= threshold
    ensures forall i, j | 0 <= i < j < |Near(values, center, threshold)| ::
              Near(values, center, threshold)[i] < Near(values, center, threshold)[j]
  {
    if values != [] {
      var n := |values| - 1;
      NearExactly(values[..n], center, threshold);
      assert forall i | 0 <= i < n :: values[..n][i] == values[i];
    }
  }

  /**
   * The filter keeps, in order, exactly the values within the given factor of the scaled deviation; it keeps
   * all of them if there are fewer than three, or if the deviation is zero.
   */
  lemma FilterExactly(values: seq<real>, k: real)
    ensures forall i: nat :: i in FilterOutliers(values, k) <==>
              i < |values| &&
              (|values| < 3 || Mad(values) == 0.0 || Abs(values[i] - Median(values)) <= k * CONSISTENCY * Mad(values))
    ensures forall i, j | 0 <= i < j < |FilterOutliers(values, k)| ::
              FilterOutliers(values, k)[i] < FilterOutliers(values, k)[j]
  {
    NearExactly(values, Median(values), k * CONSISTENCY * Mad(values));
    hide Near, Median, Mad;
    forall i: nat ensures i in All(|values|) <==> i < |values| {
      if i < |values| {
        assert All(|values|)[i] == i;
      }
    }
  }

  lemma {:induction false} CountMonotone(s: seq<real>, t: real, u: real)
    requires t <= u
    ensures Count(s, t, false) <= Count(s, u, false)
  {
    if s != [] {
      CountMonotone(s[..|s| - 1], t, u);
    }
  }

  lemma MadNotNegative(values: seq<real>)
    ensures Mad(values) >= 0.0
  {
    if values != [] {
      var d := Deviations(values, Median(values));
      HighestOf(d);
      var hi: real :| AllWithin(d, 0.0, hi);
      MedianWithin(d, 0.0, hi);
    }
  }

  lemma {:induction false} HighestOf(d: seq<real>)
    requires forall i | 0 <= i < |d| :: 0.0 <= d[i]
    ensures exists hi: real :: AllWithin(d, 0.0, hi)
  {
    if d == [] {
      assert AllWithin(d, 0.0, 0.0);
    } else {
      var n := |d| - 1;
      HighestOf(d[..n]);
      var h: real :| AllWithin(d[..n], 0.0, h);
      var hi := if d[n] > h then d[n] else h;
      forall i | 0 <= i < |d| ensures 0.0 <= d[i] <= hi {
        assert i < n ==> d[..n][i] == d[i];
      }
      assert AllWithin(d, 0.0, hi);
    }
  }

  /** For every factor of at least 1, at least half of the values are kept. */
  lemma KeepsHalf(values: seq<real>, k: real)
    requires k >= 1.0
    ensures 2 * |FilterOutliers(values, k)| >= |values|
  {
    hide Median, Near;
    if |values| >= 3 && Mad(values) != 0.0 {
      MadNotNegative(values);
      ThresholdAtLeast(k, Mad(values));
      NearKeepsHalf(values, Median(values), k * CONSISTENCY * Mad(values));
    }
  }

  lemma NearKeepsHalf(values: seq<real>, center: real, threshold: real)
    requires Median(Deviations(values, center)) <= threshold
    ensures 2 * |Near(values, center, threshold)| >= |values|
  {
    hide Median, Near, Count;
    var d := Deviations(values, center);
    MedianSplits(d);
    CountMonotone(d, Median(d), threshold);
    NearCounts(values, center, threshold);
  }

  lemma ThresholdAtLeast(k: real, m: real)
    requires k >= 1.0 && m >= 0.0
    ensures k * CONSISTENCY * m >= m
  {
    AtLeastItself(k, CONSISTENCY);
    AtLeastItself(k * CONSISTENCY, m);
  }

  lemma AtLeastItself(a: real, m: real)
    requires a >= 1.0 && m >= 0.0
    ensures a * m >= m
  {
    assert a * m - m == (a - 1.0) * m;
  }

  /** The robust median lies between the smallest and the largest value. */
  lemma RobustWithinRange(values: seq<real>, lo: real, hi: real)
    requires values != [] && AllWithin(values, lo, hi)
    ensures lo <= RobustMedian(values) <= hi
  {
    KeepsHalf(values, 3.0);
    MedianWithin(At(values, FilterOutliers(values, 3.0)), lo, hi);
  }

  /** It is at most three scaled deviations away from the plain median. */
  lemma RobustNearMedian(values: seq<real>)
    ensures Abs(RobustMedian(values) - Median(values)) <= 3.0 * CONSISTENCY * Mad(values)
  {
    MadNotNegative(values);
    var r := FilterOutliers(values, 3.0);
    var center, threshold := Median(values), 3.0 * CONSISTENCY * Mad(values);
    if |values| < 3 || Mad(values) == 0.0 {
      assert At(values, r) == values;
    } else {
      KeepsHalf(values, 3.0);
      forall i | 0 <= i < |r| ensures center - threshold <= At(values, r)[i] <= center + threshold {
        assert Abs(values[r[i]] - center) <= threshold;
      }
      MedianWithin(At(values, r), center - threshold, center + threshold);
    }
  }
}
