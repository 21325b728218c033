/**
 Latency statistics of internal/benchmark/benchmark.go: the in-place quicksort, the
 percentiles read off the sorted samples, the 64-bit sums behind mean and variance, and
 the division of iterations among workers.
 */
module Benchmark {
  import opened Int64

  // ----- Sorting

  ghost predicate SortedBetween(s: seq<int>, lo: int, hi: int)
    requires 0 <= lo <= hi <= |s|
  {
    forall i, j :: lo <= i < j < hi ==> s[i] <= s[j]
  }

  /** `t` is a permutation of `s` that moves nothing outside `lo..hi`. */
  ghost predicate Rearranged(s: seq<int>, t: seq<int>, lo: int, hi: int) {
    && |s| == |t| && 0 <= lo <= hi <= |s|
    && multiset(s) == multiset(t)
    && (forall k :: 0 <= k < lo || hi <= k < |s| ==> s[k] == t[k])
  }

  lemma SliceRearranged(s: seq<int>, t: seq<int>, lo: int, hi: int)
    requires Rearranged(s, t, lo, hi)
    ensures multiset(s[lo..hi]) == multiset(t[lo..hi])
  {
    assert s[..lo] == t[..lo] && s[hi..] == t[hi..];
    assert s == s[..lo] + s[lo..hi] + s[hi..] && t == t[..lo] + t[lo..hi] + t[hi..];
    assert multiset(s) == multiset(s[..lo]) + multiset(s[lo..hi]) + multiset(s[hi..]);
    assert multiset(t) == multiset(t[..lo]) + multiset(t[lo..hi]) + multiset(t[hi..]);
    Cancel(multiset(s[..lo]), multiset(s[lo..hi]), multiset(t[lo..hi]), multiset(s[hi..]));
  }

  lemma Cancel(a: multiset<int>, x: multiset<int>, y: multiset<int>, b: multiset<int>)
    requires a + x + b == a + y + b
    ensures x == y
  {
    forall v
      ensures x[v] == y[v]
    {
      assert (a + x + b)[v] == a[v] + x[v] + b[v] && (a + y + b)[v] == a[v] + y[v] + b[v];
    }
  }

  /** What bounds a slice still bounds it after a permutation of the slice. */
  lemma BoundsSurvive(s: seq<int>, t: seq<int>, lo: int, hi: int, pivot: int)
    requires Rearranged(s, t, lo, hi)
    ensures (forall k :: lo <= k < hi ==> s[k] <= pivot) ==> forall k :: lo <= k < hi ==> t[k] <= pivot
    ensures (forall k :: lo <= k < hi ==> s[k] >= pivot) ==> forall k :: lo <= k < hi ==> t[k] >= pivot
  {
    SliceRearranged(s, t, lo, hi);
    forall k | lo <= k < hi
      ensures exists m :: lo <= m < hi && s[m] == t[k]
    {
      assert t[lo..hi][k - lo] in multiset(t[lo..hi]);
      assert t[k] in s[lo..hi];
      var m :| 0 <= m < |s[lo..hi]| && s[lo..hi][m] == t[k];
      assert s[lo + m] == t[k];
    }
  }

  /** The scan carries no bounds check: an element that stops it lies at `stop` or before. */
  method ScanUp(a: array<int>, from: int, pivot: int, ghost stop: int) returns (i: int)
    requires 0 <= from <= stop < a.Length && a[stop] >= pivot
    ensures from <= i <= stop && a[i] >= pivot
    ensures forall k :: from <= k < i ==> a[k] < pivot
  {
    i := from;
    while a[i] < pivot
      invariant from <= i <= stop
      invariant forall k :: from <= k < i ==> a[k] < pivot
      decreases stop - i
    {
      i := i + 1;
    }
  }

  method ScanDown(a: array<int>, from: int, pivot: int, ghost stop: int) returns (j: int)
    requires 0 <= stop <= from < a.Length && a[stop] <= pivot
    ensures stop <= j <= from && a[j] <= pivot
    ensures forall k :: j < k <= from ==> a[k] > pivot
  {
    j := from;
    while a[j] > pivot
      invariant stop <= j <= from
      invariant forall k :: j < k <= from ==> a[k] > pivot
      decreases j - stop
    {
      j := j - 1;
    }
  }

  method Exchange(a: array<int>, ghost lo: int, ghost hi: int, i: int, j: int)
    requires 0 <= lo <= i <= j < hi <= a.Length
    modifies a
    ensures a[i] == old(a[j]) && a[j] == old(a[i])
    ensures forall k :: 0 <= k < a.Length && k != i && k != j ==> a[k] == old(a[k])
    ensures Rearranged(old(a[..]), a[..], lo, hi)
  {
    a[i], a[j] := a[j], a[i];
    assert a[..] == old(a[..])[i := old(a[j])][j := old(a[i])];
  }

  /**
   The partition loop. The pivot, and after the first exchange the exchanged elements, stop
   the two inner scans inside the slice.
   */
  method Partition(a: array<int>, lo: int, hi: int) returns (i: int, j: int, ghost pivot: int)
    requires 0 <= lo && lo + 2 <= hi <= a.Length
    modifies a
    ensures lo - 1 <= j < i <= hi && j < hi - 1 && lo < i
    ensures Rearranged(old(a[..]), a[..], lo, hi)
    ensures forall k :: lo <= k <= j ==> a[k] <= pivot
    ensures forall k :: i <= k < hi ==> a[k] >= pivot
    ensures forall k :: j < k < i ==> a[k] == pivot
  {
    var p := a[lo + (hi - lo) / 2];
    pivot := p;
    i, j := lo, hi - 1;
    ghost var left, right := lo + (hi - lo) / 2, lo + (hi - lo) / 2;
    while i <= j
      invariant lo <= i <= hi && lo - 1 <= j < hi
      invariant Rearranged(old(a[..]), a[..], lo, hi)
      invariant forall k :: lo <= k < i ==> a[k] <= p
      invariant forall k :: j < k < hi ==> a[k] >= p
      invariant i <= j ==> i <= right < hi && lo <= left <= j && a[left] <= p && a[right] >= p
      invariant i > j ==> i > lo && j < hi - 1
      decreases j - i
    {
      i := ScanUp(a, i, p, right);
      j := ScanDown(a, j, p, left);
      if i <= j {
        Exchange(a, lo, hi, i, j);
        left, right := i, j;
        i, j := i + 1, j - 1;
      }
    }
  }

  lemma SortedParts(s: seq<int>, lo: int, i: int, j: int, hi: int, pivot: int)
    requires 0 <= lo <= j + 1 <= i <= hi <= |s|
    requires SortedBetween(s, lo, j + 1) && SortedBetween(s, i, hi)
    requires forall k :: lo <= k <= j ==> s[k] <= pivot
    requires forall k :: i <= k < hi ==> s[k] >= pivot
    requires forall k :: j < k < i ==> s[k] == pivot
    ensures SortedBetween(s, lo, hi)
  {
  }

  /** `quickSort(arr)` on the slice `a[lo..hi]`. */
  method QuickSort(a: array<int>, lo: int, hi: int)
    requires 0 <= lo <= hi <= a.Length
    modifies a
    ensures Rearranged(old(a[..]), a[..], lo, hi)
    ensures SortedBetween(a[..], lo, hi)
    decreases hi - lo
  {
    if hi - lo <= 1 { return; }
    var i, j, pivot := Partition(a, lo, hi);
    ghost var s1 := a[..];
    if j - lo > 0 {
      QuickSort(a, lo, j + 1);
    }
    ghost var s2 := a[..];
    assert Rearranged(s1, s2, lo, j + 1) && SortedBetween(s2, lo, j + 1);
    if i < hi {
      QuickSort(a, i, hi);
    }
    ghost var s3 := a[..];
    assert Rearranged(s2, s3, i, hi) && SortedBetween(s3, i, hi);
    SortedAfterParts(s1, s2, s3, lo, i, j, hi, pivot);
  }

  lemma SortedAfterParts(
    s1: seq<int>, s2: seq<int>, s3: seq<int>, lo: int, i: int, j: int, hi: int, pivot: int)
    requires 0 <= lo <= j + 1 <= i <= hi <= |s1|
    requires forall k :: lo <= k <= j ==> s1[k] <= pivot
    requires forall k :: i <= k < hi ==> s1[k] >= pivot
    requires forall k :: j < k < i ==> s1[k] == pivot
    requires Rearranged(s1, s2, lo, j + 1) && SortedBetween(s2, lo, j + 1)
    requires Rearranged(s2, s3, i, hi) && SortedBetween(s3, i, hi)
    ensures Rearranged(s1, s3, lo, hi) && SortedBetween(s3, lo, hi)
  {
    BoundsSurvive(s1, s2, lo, j + 1, pivot);
    BoundsSurvive(s2, s3, i, hi, pivot);
    SortedParts(s3, lo, i, j, hi, pivot);
  }

  // ----- Sums over samples

  function SumBy(s: seq<int>, f: int -> int): int {
    if s == [] then 0 else SumBy(s[..|s| - 1], f) + f(s[|s| - 1])
  }

  function Identity(x: int): int { x }
  function Square(x: int): int { x * x }
  function Below(v: int): int -> int { x => if x < v then 1 else 0 }
  function AtMost(v: int): int -> int { x => if x <= v then 1 else 0 }

  lemma {:induction false} SumByRemove(s: seq<int>, f: int -> int, k: nat)
    requires k < |s|
    ensures SumBy(s, f) == SumBy(s[..k] + s[k + 1..], f) + f(s[k])
  {
    var n := |s|;
    if k == n - 1 {
      assert s[..k] + s[k + 1..] == s[..n - 1];
    } else {
      SumByRemove(s[..n - 1], f, k);
      var rest := s[..k] + s[k + 1..];
      assert rest[..|rest| - 1] == s[..n - 1][..k] + s[..n - 1][k + 1..];
      assert rest[|rest| - 1] == s[n - 1];
    }
  }

  lemma RemoveOne(t: seq<int>, k: nat)
    requires k < |t|
    ensures multiset(t[..k] + t[k + 1..]) == multiset(t) - multiset{t[k]}
  {
    assert t == t[..k] + [t[k]] + t[k + 1..];
  }

  /** A sum over samples does not depend on their order. */
  lemma {:induction false} SumByPermutation(s: seq<int>, t: seq<int>, f: int -> int)
    requires multiset(s) == multiset(t)
    ensures SumBy(s, f) == SumBy(t, f)
    decreases |s|
  {
    if s == [] {
      assert |t| == |multiset(t)| == |multiset(s)| == 0;
    } else {
      var front, x := s[..|s| - 1], s[|s| - 1];
      assert s == front + [x];
      assert x in multiset(t);
      var k :| 0 <= k < |t| && t[k] == x;
      var rest := t[..k] + t[k + 1..];
      assert multiset(rest) == multiset(t) - multiset{x} by { RemoveOne(t, k); }
      assert multiset(front) == multiset(s) - multiset{x};
      SumByPermutation(front, rest, f);
      SumByRemove(t, f, k);
    }
  }

  // ----- Mean and variance

  method AccumulateSums(samples: array<int>) returns (sum: int, sumSq: int)
    ensures sum == Wrap64(SumBy(samples[..], Identity))
    ensures sumSq == Wrap64(SumBy(samples[..], Square))
  {
    sum, sumSq := 0, 0;
    var i := 0;
    while i < samples.Length
      invariant 0 <= i <= samples.Length
      invariant sum == Wrap64(SumBy(samples[..i], Identity))
      invariant sumSq == Wrap64(SumBy(samples[..i], Square))
    {
      var x := samples[i];
      WrapAdd(SumBy(samples[..i], Identity), x);
      WrapAdd(SumBy(samples[..i], Square), x * x);
      sum := Wrap64(sum + Wrap64(x));
      sumSq := Wrap64(sumSq + Wrap64(x * x));
      assert samples[..i + 1][..i] == samples[..i];
      i := i + 1;
    }
    assert samples[..i] == samples[..];
  }

  /** The sum of the squared distances of the samples to `c`. */
  function Deviations(s: seq<int>, c: real): real {
    if s == [] then 0.0
    else Deviations(s[..|s| - 1], c) + (s[|s| - 1] as real - c) * (s[|s| - 1] as real - c)
  }

  function Spread(sumSq: real, sum: real, n: real, c: real): real {
    sumSq - 2.0 * c * sum + n * c * c
  }

  lemma {:induction false} DeviationsExpand(s: seq<int>, c: real)
    ensures Deviations(s, c) == Spread(SumBy(s, Square) as real, SumBy(s, Identity) as real, |s| as real, c)
  {
    if s != [] {
      var front, x := s[..|s| - 1], s[|s| - 1];
      DeviationsExpand(front, c);
      SpreadStep(SumBy(front, Square) as real, SumBy(front, Identity) as real, |front| as real, c, x as real);
      RealSquare(x);
      assert SumBy(s, Square) as real == SumBy(front, Square) as real + x as real * x as real;
      assert SumBy(s, Identity) as real == SumBy(front, Identity) as real + x as real;
      assert |s| as real == |front| as real + 1.0;
    }
  }

  lemma RealSquare(x: int)
    ensures (x * x) as real == x as real * x as real
  {
  }

  lemma SpreadStep(q: real, m: real, n: real, c: real, x: real)
    ensures Spread(q + x * x, m + x, n + 1.0, c) == Spread(q, m, n, c) + (x - c) * (x - c)
  {
  }

  lemma {:induction false} DeviationsNonNegative(s: seq<int>, c: real)
    ensures Deviations(s, c) >= 0.0
  {
    if s != [] {
      DeviationsNonNegative(s[..|s| - 1], c);
      SquareNonNegative(s[|s| - 1] as real - c);
    }
  }

  lemma SquareNonNegative(y: real)
    ensures y * y >= 0.0
  {
  }

  lemma {:induction false} SquaresNonNegative(s: seq<int>)
    ensures SumBy(s, Square) >= 0
  {
    if s != [] {
      SquaresNonNegative(s[..|s| - 1]);
      assert s[|s| - 1] * s[|s| - 1] >= 0;
    }
  }

  // ----- The result

  datatype Result = Result(
    iterations: nat, mean: real, min: int, max: int, p50: int, p90: int, p95: int, p99: int, variance: real,
    successes: int, errors: int, bytes: int)

  const NO_RESULT := Result(0, 0.0, 0, 0, 0, 0, 0, 0, 0.0, 0, 0, 0)

  /** The index `int(n*q)` of a percentile, `q` in percent. */
  function PercentileIndex(n: nat, q: nat): int {
    (n as real * (q as real / 100.0)).Floor
  }

  lemma PercentileIndexIs(n: nat, q: nat)
    ensures PercentileIndex(n, q) == n * q / 100
  {
  }

  lemma PercentileIndices(n: nat)
    requires n > 0
    ensures 0 <= PercentileIndex(n, 50) <= PercentileIndex(n, 90) <= PercentileIndex(n, 95)
              <= PercentileIndex(n, 99) < n
  {
  }

  /** `v` is a sample with at most `k` samples below it and more than `k` at or below it. */
  ghost predicate HasRank(samples: seq<int>, v: int, k: int) {
    v in samples && SumBy(samples, Below(v)) <= k < SumBy(samples, AtMost(v))
  }

  lemma {:induction false} CountsInSorted(s: seq<int>, v: int, k: nat)
    requires k < |s| && v == s[k] && SortedBetween(s, 0, |s|)
    ensures SumBy(s, Below(v)) <= k < SumBy(s, AtMost(v))
  {
    CountsInPrefix(s, v, k, |s|);
    assert s[..|s|] == s;
  }

  lemma {:induction false} CountsInPrefix(s: seq<int>, v: int, k: nat, n: nat)
    requires k < |s| && v == s[k] && SortedBetween(s, 0, |s|) && n <= |s|
    ensures SumBy(s[..n], Below(v)) <= (if n < k then n else k)
    ensures SumBy(s[..n], AtMost(v)) >= (if n < k + 1 then n else k + 1)
  {
    if n > 0 {
      CountsInPrefix(s, v, k, n - 1);
      assert s[..n][..n - 1] == s[..n - 1];
      assert n - 1 < k ==> s[n - 1] <= s[k];
      assert n - 1 > k ==> s[k] <= s[n - 1];
    }
  }

  lemma RankFromSorted(samples: seq<int>, sorted: seq<int>, k: nat)
    requires multiset(samples) == multiset(sorted) && SortedBetween(sorted, 0, |sorted|) && k < |sorted|
    ensures HasRank(samples, sorted[k], k)
  {
    var v := sorted[k];
    CountsInSorted(sorted, v, k);
    SumByPermutation(samples, sorted, Below(v));
    SumByPermutation(samples, sorted, AtMost(v));
    assert v in multiset(sorted);
    assert v in multiset(samples);
  }

  function Mean(sum: int, n: nat): real
    requires n > 0
  {
    sum as real / n as real
  }

  function Variance(sum: int, sumSq: int, n: nat): real
    requires n > 0
  {
    sumSq as real / n as real - Mean(sum, n) * Mean(sum, n)
  }

  ghost predicate OrderStatistics(r: Result, samples: seq<int>) {
    var n := |samples|;
    && HasRank(samples, r.min, 0) && HasRank(samples, r.max, n - 1)
    && HasRank(samples, r.p50, n * 50 / 100) && HasRank(samples, r.p90, n * 90 / 100)
    && HasRank(samples, r.p95, n * 95 / 100) && HasRank(samples, r.p99, n * 99 / 100)
    && r.min <= r.p50 <= r.p90 <= r.p95 <= r.p99 <= r.max
  }

  /** Mean and variance are computed from the wrapped sums. */
  ghost predicate Moments(r: Result, samples: seq<int>)
    requires samples != []
  {
    && r.mean == Mean(Wrap64(SumBy(samples, Identity)), |samples|)
    && r.variance == Variance(Wrap64(SumBy(samples, Identity)), Wrap64(SumBy(samples, Square)), |samples|)
  }

  /** The statistics of a nonempty list of samples, as a relation to the samples themselves. */
  ghost predicate Summarizes(r: Result, samples: seq<int>)
    requires samples != []
  {
    var n := |samples|;
    && r.iterations == n
    && OrderStatistics(r, samples)
    && Moments(r, samples)
  }

  class BenchmarkMetrics {
    var latencies: seq<int>
    var successes: int
    var errors: int
    var bytes: int

    constructor ()
      ensures latencies == [] && successes == errors == bytes == 0
    {
      latencies, successes, errors, bytes := [], 0, 0, 0;
    }

    method Record(latency: int, success: bool, size: int)
      modifies this
      ensures latencies == old(latencies) + [latency]
      ensures successes == old(successes) + (if success then 1 else 0)
      ensures errors == old(errors) + (if success then 0 else 1)
      ensures bytes == old(bytes) + size
    {
      latencies := latencies + [latency];
      if success {
        successes := successes + 1;
      } else {
        errors := errors + 1;
      }
      bytes := bytes + size;
    }

    method GetResult() returns (r: Result)
      ensures latencies == [] ==> r == NO_RESULT
      ensures latencies != [] ==> Summarizes(r, latencies)
      ensures latencies != [] ==> r.successes == successes && r.errors == errors && r.bytes == bytes
    {
      if |latencies| == 0 {
        return NO_RESULT;
      }
      var sorted := SortedCopy(latencies);
      var n := sorted.Length;
      var sum, sumSq := AccumulateSums(sorted);
      SumByPermutation(latencies, sorted[..], Identity);
      SumByPermutation(latencies, sorted[..], Square);
      PercentileIndices(n);
      r := Result(n, Mean(sum, n), sorted[0], sorted[n - 1],
                  sorted[PercentileIndex(n, 50)], sorted[PercentileIndex(n, 90)],
                  sorted[PercentileIndex(n, 95)], sorted[PercentileIndex(n, 99)],
                  Variance(sum, sumSq, n), successes, errors, bytes);
      assert OrderStatistics(r, latencies) by { Ranks(latencies, sorted[..], r); }
    }
  }

  method SortedCopy(samples: seq<int>) returns (sorted: array<int>)
    ensures fresh(sorted) && sorted.Length == |samples|
    ensures multiset(sorted[..]) == multiset(samples) && SortedBetween(sorted[..], 0, |samples|)
  {
    sorted := new int[|samples|](i requires 0 <= i < |samples| => samples[i]);
    assert sorted[..] == samples;
    QuickSort(sorted, 0, sorted.Length);
  }

  lemma Ranks(samples: seq<int>, s: seq<int>, r: Result)
    requires samples != [] && |s| == |samples| && multiset(samples) == multiset(s) && SortedBetween(s, 0, |s|)
    requires r.min == s[0] && r.max == s[|s| - 1]
    requires forall q :: q in {50, 90, 95, 99} ==> 0 <= PercentileIndex(|s|, q) < |s|
    requires r.p50 == s[PercentileIndex(|s|, 50)] && r.p90 == s[PercentileIndex(|s|, 90)]
    requires r.p95 == s[PercentileIndex(|s|, 95)] && r.p99 == s[PercentileIndex(|s|, 99)]
    ensures OrderStatistics(r, samples)
  {
    hide HasRank, PercentileIndex;
    var n := |s|;
    PercentileIndices(n);
    PercentileIndexIs(n, 50);
    PercentileIndexIs(n, 90);
    PercentileIndexIs(n, 95);
    PercentileIndexIs(n, 99);
    forall k | 0 <= k < n
      ensures HasRank(samples, s[k], k)
    {
      RankFromSorted(samples, s, k);
    }
  }

  // ----- When mean and variance are right

  lemma {:induction false} SumsBounded(s: seq<int>, m: int)
    requires m >= 0 && forall i :: 0 <= i < |s| ==> -m <= s[i] <= m
    ensures -(|s| * m) <= SumBy(s, Identity) <= |s| * m
    ensures 0 <= SumBy(s, Square) <= |s| * m * m
  {
    if s != [] {
      var x := s[|s| - 1];
      SumsBounded(s[..|s| - 1], m);
      SquareBound(x, m);
      assert |s| * m == (|s| - 1) * m + m;
      assert |s| * m * m == (|s| - 1) * m * m + m * m;
    }
  }

  lemma SquareBound(x: int, m: int)
    requires -m <= x <= m
    ensures 0 <= x * x <= m * m
  {
  }

  /** Both sums fit in 64 bits. */
  ghost predicate SumsFit(samples: seq<int>) {
    -TWO63 <= SumBy(samples, Identity) < TWO63 && SumBy(samples, Square) < TWO63
  }

  /** The computed sums are exact exactly when they fit, however often the loop wrapped around. */
  lemma SumsExactIff(samples: seq<int>)
    ensures SumsFit(samples)
       <==> (Wrap64(SumBy(samples, Identity)) == SumBy(samples, Identity)
             && Wrap64(SumBy(samples, Square)) == SumBy(samples, Square))
  {
    WrapExact(SumBy(samples, Identity));
    WrapExact(SumBy(samples, Square));
    SquaresNonNegative(samples);
  }

  /** The reported mean is the mean of the samples, and the variance their mean squared distance to it. */
  ghost predicate RightMoments(r: Result, samples: seq<int>)
    requires samples != []
  {
    && r.mean == Mean(SumBy(samples, Identity), |samples|)
    && r.variance == Deviations(samples, r.mean) / |samples| as real
  }

  /** Mean and variance are right exactly when both sums fit in 64 bits. */
  lemma MomentsRightIff(samples: seq<int>, r: Result)
    requires samples != [] && Moments(r, samples)
    ensures RightMoments(r, samples) <==> SumsFit(samples)
  {
    hide Wrap64, Mean, Variance, Deviations, SumBy;
    var sum, sumSq := SumBy(samples, Identity), SumBy(samples, Square);
    ExactVariance(samples);
    SumsExactIff(samples);
    SameMomentsSameSums(sum, sumSq, Wrap64(sum), Wrap64(sumSq), |samples|);
  }

  /** Mean and variance determine the sums they are computed from. */
  lemma SameMomentsSameSums(sum: int, sumSq: int, sum': int, sumSq': int, n: nat)
    requires n > 0
    ensures Mean(sum, n) == Mean(sum', n) && Variance(sum, sumSq, n) == Variance(sum', sumSq', n)
       <==> sum == sum' && sumSq == sumSq'
  {
    SameMeanSameSum(sum, sum', n);
    SameMeanSameSum(sumSq, sumSq', n);
    hide Mean;
    assert Variance(sum, sumSq, n) == Mean(sumSq, n) - Mean(sum, n) * Mean(sum, n);
    assert Variance(sum', sumSq', n) == Mean(sumSq', n) - Mean(sum', n) * Mean(sum', n);
  }

  lemma SameMeanSameSum(sum: int, sum': int, n: nat)
    requires n > 0
    ensures Mean(sum, n) == Mean(sum', n) <==> sum == sum'
  {
    MeanTimesCount(sum, n);
    MeanTimesCount(sum', n);
  }

  lemma MeanTimesCount(sum: int, n: nat)
    requires n > 0
    ensures Mean(sum, n) * n as real == sum as real
  {
  }

  /** So when the sums fit the variance is not negative. */
  lemma VarianceWhenSumsFit(samples: seq<int>, r: Result)
    requires samples != [] && Moments(r, samples) && SumsFit(samples)
    ensures r.mean * |samples| as real == SumBy(samples, Identity) as real
    ensures r.variance == Deviations(samples, r.mean) / |samples| as real >= 0.0
  {
    hide Wrap64, Mean, Variance, Deviations, SumBy;
    MomentsRightIff(samples, r);
    MeanTimesCount(SumBy(samples, Identity), |samples|);
    DeviationsNonNegative(samples, r.mean);
    QuotientNonNegative(Deviations(samples, r.mean), |samples|);
  }

  lemma QuotientNonNegative(d: real, n: nat)
    requires n > 0 && d >= 0.0
    ensures d / n as real >= 0.0
  {
  }

  lemma ExactVariance(samples: seq<int>)
    requires samples != []
    ensures var sum, sumSq := SumBy(samples, Identity), SumBy(samples, Square);
      Variance(sum, sumSq, |samples|) == Deviations(samples, Mean(sum, |samples|)) / |samples| as real
  {
    hide SumBy, Deviations, Mean, Variance, Spread;
    var sum, sumSq := SumBy(samples, Identity), SumBy(samples, Square);
    DeviationsExpand(samples, Mean(sum, |samples|));
    SpreadIsVariance(sum, sumSq, |samples|);
  }

  lemma SpreadIsVariance(sum: int, sumSq: int, n: nat)
    requires n > 0
    ensures Variance(sum, sumSq, n) == Spread(sumSq as real, sum as real, n as real, Mean(sum, n)) / n as real
  {
    MeanTimesCount(sum, n);
  }

  /** A bound on the samples that rules out overflow. */
  lemma NoOverflow(samples: seq<int>, m: int)
    requires m >= 0 && forall i :: 0 <= i < |samples| ==> -m <= samples[i] <= m
    requires |samples| * m * m < TWO63
    ensures SumsFit(samples)
  {
    SumsBounded(samples, m);
    ProductBelowSquare(|samples|, m);
  }

  lemma ProductBelowSquare(n: int, m: int)
    requires n >= 0 && m >= 0
    ensures n * m <= n * m * m
  {
  }

  /** One latency of 3.04 seconds makes the computed variance negative. */
  lemma OverflowExample(r: Result)
    requires Moments(r, [3_040_000_000])
    ensures r.variance < 0.0
  {
  }

  // ----- Dividing iterations among workers

  /** The iterations of one worker: from `w*per` up to `(w+1)*per` or the total. */
  predicate WorkerRuns(iterations: nat, workers: nat, w: nat, i: int)
    requires workers > 0
  {
    var per := (iterations + workers - 1) / workers;
    w < workers && w * per <= i < w * per + per && i < iterations
  }

  /** Every iteration is run by exactly one worker. */
  lemma EveryIterationOnce(iterations: nat, workers: nat, i: nat) returns (w: nat)
    requires workers > 0 && i < iterations
    ensures WorkerRuns(iterations, workers, w, i)
    ensures forall v: nat :: WorkerRuns(iterations, workers, v, i) ==> v == w
  {
    var per := (iterations + workers - 1) / workers;
    assert per * workers >= iterations by {
      assert iterations + workers - 1 < (per + 1) * workers;
      assert (per + 1) * workers == per * workers + workers;
    }
    assert per > 0;
    w := i / per;
    assert w * per <= i < w * per + per;
    if w >= workers {
      MulMonotone(workers, w, per);
    }
    forall v: nat | WorkerRuns(iterations, workers, v, i)
      ensures v == w
    {
      DivisionUnique(i, per, v, w);
    }
  }

  lemma DivisionUnique(i: int, c: int, a: int, b: int)
    requires a * c <= i < a * c + c && b * c <= i < b * c + c
    ensures a == b
  {
    if a < b {
      MulMonotone(a + 1, b, c);
    } else if b < a {
      MulMonotone(b + 1, a, c);
    }
  }

  lemma MulMonotone(a: int, b: int, c: int)
    requires a <= b && c >= 0
    ensures a * c <= b * c
  {
  }
}
