/** Order statistics and the histogram over sorted conversion times (nanoseconds). */
module FunnelStats {
  import opened Basics

  const SECOND := 1_000_000_000

  /** Exclusive upper bounds of the finite buckets; the eighth bucket is open-ended. */
  const UPPER: seq<int> := [30 * SECOND, 120 * SECOND, 300 * SECOND, 900 * SECOND,
                            3600 * SECOND, 21600 * SECOND, 86400 * SECOND]

  predicate Ascending(s: seq<int>) {
    forall i, j :: 0 <= i <= j < |s| ==> s[i] <= s[j]
  }

  /** slices.Sort on durations. */
  function Sorted(s: seq<int>): (t: seq<int>)
    ensures Ascending(t) && multiset(t) == multiset(s) && |t| == |s|
  {
    SortSorts(s, (a: int, b: int) => a < b);
    SortKeeps(s, (a: int, b: int) => a < b);
    Sort(s, (a: int, b: int) => a < b)
  }

  /** Go's integer division truncates toward zero. */
  function GoDiv(a: int, b: int): int
    requires b > 0
  {
    if a < 0 then -(-a / b) else a / b
  }

  function MedianSorted(sorted: seq<int>): Option<int> {
    var n := |sorted|;
    if n == 0 then None
    else if n % 2 == 1 then Some(sorted[n / 2])
    else Some(GoDiv(sorted[n / 2 - 1] + sorted[n / 2], 2))
  }

  function Ceil(x: real): int { -((-x).Floor) }

  /** Nearest rank. */
  function PercentileSorted(sorted: seq<int>, p: real): Option<int> {
    var n := |sorted|;
    if n == 0 || p <= 0.0 || p > 1.0 then None
    else
      var rank := Ceil(p * n as real) - 1;
      var idx := if rank < 0 then 0 else rank;
      Some(sorted[if idx >= n then n - 1 else idx])
  }

  const P95 := 19.0 / 20.0

  /** min <= median <= p95 <= max. */
  lemma StatisticsAreOrdered(sorted: seq<int>)
    requires Ascending(sorted) && sorted != []
    ensures MedianSorted(sorted).Some? && PercentileSorted(sorted, P95).Some?
    ensures sorted[0] <= MedianSorted(sorted).value <= PercentileSorted(sorted, P95).value <= sorted[|sorted| - 1]
  {
    var n := |sorted|;
    var rank := Ceil(P95 * n as real) - 1;
    assert P95 * n as real <= Ceil(P95 * n as real) as real < P95 * n as real + 1.0;
    assert n / 2 <= rank < n;
    if n % 2 == 0 { HalfBetween(sorted[n / 2 - 1], sorted[n / 2]); }
  }

  lemma HalfBetween(a: int, b: int)
    requires a <= b
    ensures a <= GoDiv(a + b, 2) <= b
  {
  }

  // ----- the histogram

  /** The bucket of one value: the first whose upper bound exceeds it. */
  function Classify(v: int): (b: nat)
    ensures b <= |UPPER|
    ensures b < |UPPER| ==> v < UPPER[b]
    ensures forall a :: 0 <= a < b ==> UPPER[a] <= v
  {
    FirstAbove(v, 0)
  }

  function FirstAbove(v: int, from: nat): (b: nat)
    requires from <= |UPPER| && forall a :: 0 <= a < from ==> UPPER[a] <= v
    ensures from <= b <= |UPPER|
    ensures b < |UPPER| ==> v < UPPER[b]
    ensures forall a :: 0 <= a < b ==> UPPER[a] <= v
    decreases |UPPER| - from
  {
    if from == |UPPER| || v < UPPER[from] then from else FirstAbove(v, from + 1)
  }

  function CountIn(values: seq<int>, b: nat): nat {
    if values == [] then 0
    else CountIn(values[..|values| - 1], b) + if Classify(values[|values| - 1]) == b then 1 else 0
  }

  function Histogram(values: seq<int>): seq<nat> {
    seq(|UPPER| + 1, b requires 0 <= b => CountIn(values, b))
  }

  /** Single pass: the bucket index only moves forward. */
  method DistributionCountsSorted(sorted: seq<int>) returns (counts: seq<nat>)
    requires Ascending(sorted)
    ensures counts == Histogram(sorted)
  {
    counts := seq(|UPPER| + 1, _ => 0);
    var b := 0;
    for i := 0 to |sorted|
      invariant |counts| == |UPPER| + 1 && 0 <= b <= |UPPER|
      invariant forall c :: 0 <= c <= |UPPER| ==> counts[c] == CountIn(sorted[..i], c)
      invariant i < |sorted| ==> forall a :: 0 <= a < b ==> UPPER[a] <= sorted[i]
    {
      var v := sorted[i];
      while b < |UPPER| && v >= UPPER[b]
        invariant 0 <= b <= |UPPER| && forall a :: 0 <= a < b ==> UPPER[a] <= v
      {
        b := b + 1;
      }
      ClassifyIs(v, b);
      counts := counts[b := counts[b] + 1];
      assert sorted[..i + 1][..i] == sorted[..i];
    }
    assert sorted[..|sorted|] == sorted;
  }

  lemma ClassifyIs(v: int, b: nat)
    requires b <= |UPPER| && (b < |UPPER| ==> v < UPPER[b]) && forall a :: 0 <= a < b ==> UPPER[a] <= v
    ensures Classify(v) == b
  {
  }

  function Total(counts: seq<nat>): nat {
    if counts == [] then 0 else Total(counts[..|counts| - 1]) + counts[|counts| - 1]
  }

  lemma {:induction false} TotalBump(counts: seq<nat>, b: nat)
    requires b < |counts|
    ensures Total(counts[b := counts[b] + 1]) == Total(counts) + 1
  {
    var n := |counts| - 1;
    var bumped := counts[b := counts[b] + 1];
    if b < n {
      TotalBump(counts[..n], b);
      assert bumped[..n] == counts[..n][b := counts[b] + 1];
    } else {
      assert bumped[..n] == counts[..n];
    }
  }

  lemma {:induction false} TotalZero(n: nat)
    ensures Total(seq(n, _ => 0)) == 0
  {
    if n > 0 {
      TotalZero(n - 1);
      assert seq(n, _ => 0)[..n - 1] == seq(n - 1, _ => 0);
    }
  }

  /** Every value lands in exactly one bucket. */
  lemma {:induction false} HistogramTotal(values: seq<int>)
    ensures Total(Histogram(values)) == |values|
  {
    if values == [] {
      TotalZero(|UPPER| + 1);
      assert Histogram(values) == seq(|UPPER| + 1, _ => 0);
    } else {
      var front, b := values[..|values| - 1], Classify(values[|values| - 1]);
      HistogramTotal(front);
      TotalBump(Histogram(front), b);
      assert Histogram(values) == Histogram(front)[b := Histogram(front)[b] + 1];
    }
  }
}
