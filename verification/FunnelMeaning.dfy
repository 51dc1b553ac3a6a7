/** What a funnel's rows say, from the events of the users and the window in seconds: how many users convert to each
    step, and which of the conversion times the median, the 95th percentile and the average are. */
module FunnelMeaning {
  import opened Basics
  import opened Breakdowns
  import opened FunnelMatching
  import opened FunnelStats
  import opened FunnelTiming
  import FunnelLaws

  // ----- statistics by counting

  ghost function NumBelow(s: seq<int>, v: int): nat { |set i | 0 <= i < |s| && s[i] < v| }

  ghost function NumUpTo(s: seq<int>, v: int): nat { |set i | 0 <= i < |s| && s[i] <= v| }

  /** The first n positions. */
  ghost function Firsts(n: nat): (f: set<int>)
    ensures |f| == n && forall i :: i in f <==> 0 <= i < n
  {
    if n == 0 then {} else Firsts(n - 1) + {n - 1}
  }

  lemma Subset(a: set<int>, b: set<int>)
    requires a <= b
    ensures |a| <= |b|
  {
    assert b == a + (b - a);
  }

  /** In ascending order the k-th value has at most k below it and more than k not above it. */
  lemma PlaceCounts(s: seq<int>, k: nat)
    requires Ascending(s) && k < |s|
    ensures NumBelow(s, s[k]) <= k < NumUpTo(s, s[k])
  {
    Subset((set i | 0 <= i < |s| && s[i] < s[k]), Firsts(k));
    Subset(Firsts(k + 1), set i | 0 <= i < |s| && s[i] <= s[k]);
  }

  /** Fewer than 95 in 100 values lie below the 95th percentile, and at least 95 in 100 do not lie above it. */
  lemma P95Means(sorted: seq<int>)
    requires Ascending(sorted) && sorted != []
    ensures PercentileSorted(sorted, P95).Some? && PercentileSorted(sorted, P95).value in sorted
    ensures var p := PercentileSorted(sorted, P95).value;
      100 * NumBelow(sorted, p) < 95 * |sorted| <= 100 * NumUpTo(sorted, p)
  {
    var n := |sorted|;
    var c := Ceil(P95 * n as real);
    assert P95 * n as real <= c as real < P95 * n as real + 1.0;
    assert 95 * n <= 100 * c < 95 * n + 100;
    var rank := c - 1;
    assert 0 <= rank < n;
    PlaceCounts(sorted, rank);
  }

  /** The median is the middle value, or half the sum of the two middle ones, cut towards zero. */
  lemma MedianMeans(sorted: seq<int>)
    requires Ascending(sorted) && sorted != []
    ensures MedianSorted(sorted).Some?
    ensures var m, n := MedianSorted(sorted).value, |sorted|;
      if n % 2 == 1 then m in sorted && 2 * NumBelow(sorted, m) < n < 2 * NumUpTo(sorted, m)
      else exists a, b :: IsMiddle(sorted, a, b) &&
             if a + b >= 0 then 2 * m <= a + b <= 2 * m + 1 else 2 * m - 1 <= a + b <= 2 * m
  {
    var n := |sorted|;
    PlaceCounts(sorted, n / 2);
    if n % 2 == 0 {
      PlaceCounts(sorted, n / 2 - 1);
      assert IsMiddle(sorted, sorted[n / 2 - 1], sorted[n / 2]);
    }
  }

  /** The values on both sides of the middle of an even number of values. */
  ghost predicate IsMiddle(s: seq<int>, a: int, b: int) {
    && a in s && b in s
    && 2 * NumBelow(s, a) < |s| <= 2 * NumUpTo(s, a)
    && 2 * NumBelow(s, b) <= |s| < 2 * NumUpTo(s, b)
  }

  /** The bounds of the histogram, in seconds. */
  lemma BucketsMean(v: int)
    ensures Classify(v) ==
      if v < 30_000_000_000 then 0 else if v < 120_000_000_000 then 1 else if v < 300_000_000_000 then 2
      else if v < 900_000_000_000 then 3 else if v < 3_600_000_000_000 then 4 else if v < 21_600_000_000_000 then 5
      else if v < 86_400_000_000_000 then 6 else 7
  {
    assert UPPER[0] == 30_000_000_000 && UPPER[1] == 120_000_000_000 && UPPER[2] == 300_000_000_000;
    assert UPPER[3] == 900_000_000_000 && UPPER[4] == 3_600_000_000_000 && UPPER[5] == 21_600_000_000_000;
    assert UPPER[6] == 86_400_000_000_000;
  }

  /** What a row tells of its conversion times, none of which is negative: their average cut to a whole number, and the
      statistics of the same times in ascending order. */
  lemma TimingMeans(acc: Acc)
    requires acc.count == |acc.times| > 0 && acc.total >= 0
    ensures var timing, sorted := TimingOf(acc), Sorted(acc.times);
      && multiset(sorted) == multiset(acc.times) && Ascending(sorted)
      && timing.avg * acc.count <= acc.total < (timing.avg + 1) * acc.count
      && MedianSorted(sorted) == Some(timing.median) && PercentileSorted(sorted, P95) == Some(timing.p95)
      && timing.distribution == Histogram(sorted)
  {
    var sorted := Sorted(acc.times);
    HasStatistics(sorted);
    AverageMeans(acc.total, acc.count);
    hide MedianSorted, PercentileSorted, Histogram, GoDiv, Sorted;
  }

  lemma HasStatistics(sorted: seq<int>)
    requires sorted != []
    ensures MedianSorted(sorted).Some? && PercentileSorted(sorted, P95).Some?
  {
  }

  lemma AverageMeans(total: int, count: int)
    requires count > 0 && total >= 0
    ensures GoDiv(total, count) * count <= total < (GoDiv(total, count) + 1) * count
  {
    var q := total / count;
    assert total == q * count + total % count;
    assert (q + 1) * count == q * count + count;
  }

  // ----- who converts

  /** The user has events for the steps 0 to s, one after another; with a window, from the first event of step 0 on and
      within that many seconds of it. */
  ghost predicate Converts(u: User, s: nat, windowSec: nat) {
    |u.times| == |u.steps| &&
    exists c: seq<nat> :: |c| == s + 1 && IsPath(u, c) &&
      (windowSec > 0 ==> StartsFirst(u, c[0]) && u.times[c[s]] - u.times[c[0]] <= windowSec * 1_000_000_000)
  }

  ghost predicate IsPath(u: User, c: seq<nat>) {
    && (forall k :: 0 <= k < |c| ==> c[k] < |u.times| && c[k] < |u.steps| && u.steps[c[k]] == k)
    && (forall j, k :: 0 <= j < k < |c| ==> c[j] < c[k])
  }

  ghost predicate StartsFirst(u: User, i: nat) { forall j :: 0 <= j < i && j < |u.steps| ==> u.steps[j] != 0 }

  lemma {:induction false} FirstIs(u: User, j: nat, i: nat)
    requires Parallel(u) && j <= i < |u.times| && u.steps[i] == 0 && forall k :: j <= k < i ==> u.steps[k] != 0
    ensures FirstStepZero(u, j) == i
    decreases i - j
  {
    if j < i { FirstIs(u, j + 1, i); }
  }

  lemma {:induction false} FirstHasNone(u: User, j: nat)
    requires Parallel(u) && j <= |u.times|
    ensures j <= FirstStepZero(u, j) <= |u.times|
    ensures forall k :: j <= k < FirstStepZero(u, j) ==> u.steps[k] != 0
    decreases |u.times| - j
  {
    if j < |u.times| && u.steps[j] != 0 { FirstHasNone(u, j + 1); }
  }

  lemma DepthMeans(u: User, n: nat, windowSec: nat, s: nat)
    requires Parallel(u) && TimeSorted(u) && s < n
    ensures |Match(u, n, windowSec * SECOND)| > s <==> Converts(u, s, windowSec)
  {
    hide Match, TimeSorted, Converts;
    if |Match(u, n, windowSec * SECOND)| > s { MatchConverts(u, n, windowSec, s); }
    if Converts(u, s, windowSec) { ConvertsMatch(u, n, windowSec, s); }
  }

  lemma MatchConverts(u: User, n: nat, windowSec: nat, s: nat)
    requires Parallel(u) && TimeSorted(u) && s < n && |Match(u, n, windowSec * SECOND)| > s
    ensures Converts(u, s, windowSec)
  {
    var window, idx := windowSec * SECOND, Match(u, n, windowSec * SECOND);
    GreedyIsOptimal(u, n, window);
    hide Match, FirstStepZero, TimeSorted;
    FirstHasNone(u, 0);
    var c := idx[..s + 1];
    assert IsPath(u, c);
    if windowSec > 0 {
      LaterIsLater(u, idx[s], idx[|idx| - 1]);
      assert StartsFirst(u, c[0]);
    }
  }

  lemma ConvertsMatch(u: User, n: nat, windowSec: nat, s: nat)
    requires Parallel(u) && TimeSorted(u) && s < n && Converts(u, s, windowSec)
    ensures |Match(u, n, windowSec * SECOND)| > s
  {
    var window := windowSec * SECOND;
    GreedyIsOptimal(u, n, window);
    hide Match, FirstStepZero, TimeSorted;
    var c: seq<nat> :| |c| == s + 1 && IsPath(u, c) &&
      (windowSec > 0 ==> StartsFirst(u, c[0]) && u.times[c[s]] - u.times[c[0]] <= windowSec * 1_000_000_000);
    if windowSec > 0 { FirstIs(u, 0, c[0]); }
    PathIsChain(u, c);
    assert InWindow(u, c, window) && Anchored(u, c, window);
  }

  lemma PathIsChain(u: User, c: seq<nat>)
    requires Parallel(u) && IsPath(u, c)
    ensures Chain(u, c)
  {
  }

  lemma LaterIsLater(u: User, i: nat, j: nat)
    requires TimeSorted(u) && i <= j < |u.times|
    ensures u.times[i] <= u.times[j]
  {
  }

  // ----- rows

  /** Users of the series who convert to the step. */
  ghost function Converted(users: seq<User>, key: string, s: nat, windowSec: nat): set<int> {
    set i | 0 <= i < |users| && BreakdownKey(users[i].breakdowns) == key && Converts(users[i], s, windowSec)
  }

  lemma {:induction false} CountMeans(users: seq<User>, n: nat, windowSec: nat, key: string, s: nat)
    requires AllParallel(users) && FunnelLaws.AllSorted(users) && s < n
    ensures FunnelLaws.NumDeeper(users, n, windowSec * SECOND, key, s) == |Converted(users, key, s, windowSec)|
  {
    if users == [] {
      assert Converted(users, key, s, windowSec) == {};
    } else {
      var m := |users| - 1;
      hide Match, Converts, TimeSorted;
      assert FunnelLaws.AllSorted(users[..m]) && TimeSorted(users[m]) by { SortedFront(users); }
      CountMeans(users[..m], n, windowSec, key, s);
      DepthMeans(users[m], n, windowSec, s);
      ConvertedSnoc(users, key, s, windowSec);
    }
  }

  lemma SortedFront(users: seq<User>)
    requires users != [] && FunnelLaws.AllSorted(users)
    ensures FunnelLaws.AllSorted(users[..|users| - 1]) && TimeSorted(users[|users| - 1])
  {
    hide TimeSorted;
  }

  lemma ConvertedSnoc(users: seq<User>, key: string, s: nat, windowSec: nat)
    requires users != []
    ensures var m := |users| - 1;
      |Converted(users, key, s, windowSec)| == |Converted(users[..m], key, s, windowSec)| +
        if Key(users[m]) == key && Converts(users[m], s, windowSec) then 1 else 0
  {
    hide Converts, BreakdownKey;
    var m := |users| - 1;
    var front, all := Converted(users[..m], key, s, windowSec), Converted(users, key, s, windowSec);
    assert forall i :: 0 <= i < m ==> users[..m][i] == users[i];
    assert all == front + if Key(users[m]) == key && Converts(users[m], s, windowSec) then {m} else {};
    assert m !in front;
  }

  /** Each row is of one step and one series, and its value is the number of users of the series who convert to the
      step within the window; steps past the first report times. */
  ghost predicate RowMeans(users: seq<User>, kinds: seq<string>, windowSec: nat, row: Row) {
    && row.stepIndex < |kinds| && row.eventKind == kinds[row.stepIndex]
    && row.value == |Converted(users, BreakdownKey(row.breakdowns), row.stepIndex, windowSec)| as real
    && (row.timing.None? <==> row.stepIndex == 0)
  }

  lemma {:induction false} FirstHasKey(users: seq<User>, key: string)
    requires exists i :: 0 <= i < |users| && Key(users[i]) == key
    ensures BreakdownKey(FirstBreakdowns(users, key)) == key
  {
    hide BreakdownKey;
    if Key(users[0]) != key {
      var i :| 0 <= i < |users| && Key(users[i]) == key;
      assert users[1..][i - 1] == users[i];
      FirstHasKey(users[1..], key);
    }
  }

  lemma SeriesMeans(users: seq<User>, kinds: seq<string>, windowSec: nat, key: string)
    requires AllParallel(users) && FunnelLaws.AllSorted(users) && key in OrderedKeys(users)
    ensures var rows := SeriesRows(Accs(users, |kinds|, windowSec * SECOND, key), kinds, FirstBreakdowns(users, key));
      && (forall i :: 0 <= i < |rows| ==> RowMeans(users, kinds, windowSec, rows[i]))
      && |rows| == |kinds| && (forall i :: 0 <= i < |rows| ==> rows[i].stepIndex == i)
      && (forall i :: 0 <= i < |rows| ==> BreakdownKey(rows[i].breakdowns) == key)
  {
    hide BreakdownKey, Accs, TimingOf, Converted, FunnelLaws.NumDeeper, FunnelLaws.AllSorted;
    KeysAreUsed(users, key);
    FirstHasKey(users, key);
    var window := windowSec * SECOND;
    var rows := SeriesRows(Accs(users, |kinds|, window, key), kinds, FirstBreakdowns(users, key));
    forall i | 0 <= i < |rows| ensures RowMeans(users, kinds, windowSec, rows[i]) {
      FunnelLaws.CountIsDepth(users, |kinds|, window, key, i);
      CountMeans(users, |kinds|, windowSec, key, i);
    }
  }

  /** There is a row for every step of every listed series. */
  ghost predicate RowsFor(rows: seq<Row>, n: nat, keys: seq<string>) {
    forall key, s :: key in keys && 0 <= s < n ==> HasRow(rows, key, s)
  }

  ghost predicate HasRow(rows: seq<Row>, key: string, s: int) {
    exists r :: r in rows && r.stepIndex == s && BreakdownKey(r.breakdowns) == key
  }

  lemma {:induction false} AllRowsMean(users: seq<User>, kinds: seq<string>, windowSec: nat, keys: seq<string>)
    requires AllParallel(users) && FunnelLaws.AllSorted(users) && forall key :: key in keys ==>
      key in OrderedKeys(users)
    ensures var rows := AllRows(users, kinds, windowSec * SECOND, keys);
      (forall r :: r in rows ==> RowMeans(users, kinds, windowSec, r)) && RowsFor(rows, |kinds|, keys)
  {
    hide BreakdownKey, Accs, OrderedKeys, RowMeans, FirstBreakdowns, SeriesRows, FunnelLaws.AllSorted;
    if keys != [] {
      var front, key, window := keys[..|keys| - 1], keys[|keys| - 1], windowSec * SECOND;
      assert keys == front + [key];
      AllRowsMean(users, kinds, windowSec, front);
      SeriesMeans(users, kinds, windowSec, key);
      var before := AllRows(users, kinds, window, front);
      var more := SeriesRows(Accs(users, |kinds|, window, key), kinds, FirstBreakdowns(users, key));
      var rows := AllRows(users, kinds, window, keys);
      assert rows == before + more;
      forall k, s | k in keys && 0 <= s < |kinds| ensures HasRow(rows, k, s) {
        if k == key {
          assert more[s] in more && more[s] in rows;
        } else {
          assert HasRow(before, k, s);
        }
      }
    }
  }

  /** The rows of a funnel over time-sorted users, with the window in seconds: each means what its step, series and
      value say, and every step of every user's series has one. */
  lemma RowsMean(users: seq<User>, kinds: seq<string>, windowSec: int, numBreakdowns: nat)
    requires users != [] && FunnelLaws.AllSorted(users)
    requires Result(users, kinds, windowSec, numBreakdowns).Rows?
    ensures windowSec >= 0
    ensures var rows := Result(users, kinds, windowSec, numBreakdowns).rows;
      && (forall r :: r in rows ==> RowMeans(users, kinds, windowSec, r))
      && (forall i, s :: 0 <= i < |users| && 0 <= s < |kinds| ==> HasRow(rows, BreakdownKey(users[i].breakdowns), s))
  {
    hide BreakdownKey, AllRows, RowMeans, HasRow, FunnelLaws.AllSorted;
    AllRowsMean(users, kinds, windowSec, OrderedKeys(users));
    assert forall i :: 0 <= i < |users| ==> Key(users[i]) in OrderedKeys(users);
  }

  // ----- times

  /** From each user of the series who gets to the step, the time since the step before. */
  function StepTimes(users: seq<User>, n: nat, window: nat, key: string, s: nat): seq<int>
    requires AllParallel(users) && s > 0
  {
    if users == [] then []
    else
      var front, u := users[..|users| - 1], users[|users| - 1];
      var c := Match(u, n, window);
      StepTimes(front, n, window, key, s) +
      if BreakdownKey(u.breakdowns) == key && |c| > s then [u.times[c[s]] - u.times[c[s - 1]]] else []
  }

  lemma {:induction false} TimesAre(users: seq<User>, n: nat, window: nat, key: string, s: nat)
    requires AllParallel(users) && 0 < s < n
    ensures Accs(users, n, window, key)[s].times == StepTimes(users, n, window, key, s)
  {
    hide BreakdownKey, Match;
    if users != [] { TimesAre(users[..|users| - 1], n, window, key, s); }
  }
}
