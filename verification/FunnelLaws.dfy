/** What the funnel rows mean: counts of users by matched depth, and ordered statistics. */
module FunnelLaws {
  import opened Basics
  import opened FunnelMatching
  import opened FunnelStats
  import opened FunnelTiming

  function Depth(u: User, n: nat, window: nat): nat
    requires Parallel(u)
  {
    |Match(u, n, window)|
  }

  /** Users of the series who got past step s. */
  function NumDeeper(users: seq<User>, n: nat, window: nat, key: string, s: nat): nat
    requires AllParallel(users)
  {
    if users == [] then 0
    else
      var front, u := users[..|users| - 1], users[|users| - 1];
      NumDeeper(front, n, window, key, s) + if Key(u) == key && Depth(u, n, window) > s then 1 else 0
  }

  lemma {:induction false} CountIsDepth(users: seq<User>, n: nat, window: nat, key: string, s: nat)
    requires AllParallel(users) && s < n
    ensures Accs(users, n, window, key)[s].count == NumDeeper(users, n, window, key, s)
  {
    hide Key, Match;
    if users != [] { CountIsDepth(users[..|users| - 1], n, window, key, s); }
  }

  lemma {:induction false} DeeperShrinks(users: seq<User>, n: nat, window: nat, key: string, s: nat, t: nat)
    requires AllParallel(users) && s <= t
    ensures NumDeeper(users, n, window, key, t) <= NumDeeper(users, n, window, key, s)
  {
    hide Key, Match;
    if users != [] { DeeperShrinks(users[..|users| - 1], n, window, key, s, t); }
  }

  /** Within a series, step counts never increase. */
  lemma CountsNeverIncrease(users: seq<User>, kinds: seq<string>, window: nat, key: string, s: nat, t: nat)
    requires AllParallel(users) && s <= t < |kinds|
    ensures var rows := SeriesRows(Accs(users, |kinds|, window, key), kinds, FirstBreakdowns(users, key));
            rows[t].value <= rows[s].value
  {
    hide Match, NumDeeper;
    CountIsDepth(users, |kinds|, window, key, s);
    CountIsDepth(users, |kinds|, window, key, t);
    DeeperShrinks(users, |kinds|, window, key, s, t);
  }

  // ----- step 0 summed over the series

  function StepZeroTotal(users: seq<User>, n: nat, window: nat, keys: seq<string>): nat
    requires AllParallel(users)
  {
    if keys == [] then 0
    else StepZeroTotal(users, n, window, keys[..|keys| - 1]) + NumDeeper(users, n, window, keys[|keys| - 1], 0)
  }

  function UsersWithStepZero(users: seq<User>): nat {
    if users == [] then 0
    else UsersWithStepZero(users[..|users| - 1]) + if 0 in users[|users| - 1].steps then 1 else 0
  }

  /** One more user raises the total by one exactly when its own key is listed and it has step 0. */
  lemma {:induction false} StepZeroTotalSnoc(users: seq<User>, u: User, n: nat, window: nat, keys: seq<string>)
    requires AllParallel(users) && Parallel(u) && forall i, j :: 0 <= i < j < |keys| ==> keys[i] != keys[j]
    ensures StepZeroTotal(users + [u], n, window, keys) ==
            StepZeroTotal(users, n, window, keys) + if Key(u) in keys && Depth(u, n, window) > 0 then 1 else 0
  {
    hide Key, Match;
    assert (users + [u])[..|users|] == users;
    if keys != [] {
      var front, key := keys[..|keys| - 1], keys[|keys| - 1];
      StepZeroTotalSnoc(users, u, n, window, front);
      assert keys == front + [key];
      assert key !in front;
    }
  }

  lemma {:induction false} NewKeyAddsNothing(users: seq<User>, n: nat, window: nat, key: string, s: nat)
    requires AllParallel(users) && key !in OrderedKeys(users)
    ensures NumDeeper(users, n, window, key, s) == 0
  {
    hide Key, Match;
    if users != [] { NewKeyAddsNothing(users[..|users| - 1], n, window, key, s); }
  }

  lemma {:induction false} HasStepZero(u: User, j: nat)
    requires Parallel(u) && j <= |u.steps|
    ensures FirstStepZero(u, j) < |u.times| <==> 0 in u.steps[j..]
    decreases |u.steps| - j
  {
    if j < |u.steps| {
      HasStepZero(u, j + 1);
      assert u.steps[j..] == [u.steps[j]] + u.steps[j + 1..];
    }
  }

  /** Step-0 counts over all series add up to the users who have a step-0 event. */
  lemma {:induction false} StepZeroConserved(users: seq<User>, n: nat, window: nat)
    requires AllParallel(users) && n > 0
    ensures StepZeroTotal(users, n, window, OrderedKeys(users)) == UsersWithStepZero(users)
  {
    hide Key, Match, NumDeeper;
    if users != [] {
      var front, u := users[..|users| - 1], users[|users| - 1];
      assert users == front + [u];
      StepZeroConserved(front, n, window);
      StepZeroTotalSnoc(front, u, n, window, OrderedKeys(front));
      HasStepZero(u, 0);
      assert u.steps[0..] == u.steps;
      MatchedAny(u, n, window);
      if Key(u) !in OrderedKeys(front) {
        NewKeyAddsNothing(front, n, window, Key(u), 0);
        DeeperSnoc(front, u, n, window, Key(u), 0);
        assert OrderedKeys(users)[..|OrderedKeys(users)| - 1] == OrderedKeys(front);
      }
    }
  }

  lemma DeeperSnoc(users: seq<User>, u: User, n: nat, window: nat, key: string, s: nat)
    requires AllParallel(users) && Parallel(u)
    ensures NumDeeper(users + [u], n, window, key, s) ==
            NumDeeper(users, n, window, key, s) + if Key(u) == key && Depth(u, n, window) > s then 1 else 0
  {
    assert (users + [u])[..|users|] == users;
  }

  lemma MatchedAny(u: User, n: nat, window: nat)
    requires Parallel(u) && n > 0
    ensures Depth(u, n, window) > 0 <==> FirstStepZero(u, 0) < |u.times|
  {
    WalkStartsAtFirst(u, n, window, 0);
  }

  // ----- conversion times

  ghost predicate AllSorted(users: seq<User>) { forall i :: 0 <= i < |users| ==> TimeSorted(users[i]) }

  function SumInts(s: seq<int>): int {
    if s == [] then 0 else SumInts(s[..|s| - 1]) + s[|s| - 1]
  }

  /** One time per converting user, none negative, and `total` is their sum. */
  lemma {:induction false} TimesMatchCounts(users: seq<User>, n: nat, window: nat, key: string, s: nat)
    requires AllParallel(users) && AllSorted(users) && 0 < s < n
    ensures var acc := Accs(users, n, window, key)[s];
            && |acc.times| == acc.count && acc.total == SumInts(acc.times)
            && forall i :: 0 <= i < |acc.times| ==> acc.times[i] >= 0
  {
    hide Key, Match;
    if users != [] {
      var front, u := users[..|users| - 1], users[|users| - 1];
      TimesMatchCounts(front, n, window, key, s);
      if s < Depth(u, n, window) {
        SortedHasNoNegativeDelta(u, n, window, s);
        SumSnoc(Accs(front, n, window, key)[s].times, Delta(u, Match(u, n, window), s));
      }
    }
  }

  lemma SumSnoc(s: seq<int>, x: int)
    ensures SumInts(s + [x]) == SumInts(s) + x
  {
    assert (s + [x])[..|s|] == s;
  }

  lemma {:induction false} SumBounds(s: seq<int>, lo: int, hi: int)
    requires forall i :: 0 <= i < |s| ==> lo <= s[i] <= hi
    ensures |s| * lo <= SumInts(s) <= |s| * hi
  {
    if s != [] {
      SumBounds(s[..|s| - 1], lo, hi);
      assert |s| * lo == (|s| - 1) * lo + lo && |s| * hi == (|s| - 1) * hi + hi;
    }
  }

  /** Each converted step reports least <= median <= p95 <= greatest, an average between the
      extremes, and a histogram that counts every converting user once. */
  lemma StatisticsAreSound(users: seq<User>, n: nat, window: nat, key: string, s: nat)
    requires AllParallel(users) && AllSorted(users) && 0 < s < n
    requires Accs(users, n, window, key)[s].count > 0
    ensures var acc := Accs(users, n, window, key)[s];
            var timing, sorted := TimingOf(acc), Sorted(acc.times);
            && sorted != [] && 0 <= sorted[0]
            && sorted[0] <= timing.median <= timing.p95 <= sorted[|sorted| - 1]
            && sorted[0] <= timing.avg <= sorted[|sorted| - 1]
            && Total(timing.distribution) == acc.count
  {
    var acc := Accs(users, n, window, key)[s];
    TimesMatchCounts(users, n, window, key, s);
    var sorted := Sorted(acc.times);
    SameElements(sorted, acc.times);
    hide Accs, MedianSorted, PercentileSorted;
    StatisticsAreOrdered(sorted);
    HistogramTotal(sorted);
    var lo, hi := sorted[0], sorted[|sorted| - 1];
    assert lo in acc.times;
    forall i | 0 <= i < |acc.times| ensures lo <= acc.times[i] <= hi {
      assert acc.times[i] in sorted;
    }
    SumBounds(acc.times, lo, hi);
    AverageBetween(acc.total, acc.count, lo, hi);
  }

  lemma AverageBetween(total: int, count: int, lo: int, hi: int)
    requires count > 0 && 0 <= lo <= hi && count * lo <= total <= count * hi
    ensures lo <= GoDiv(total, count) <= hi
  {
    assert total >= 0;
    var q, r := total / count, total % count;
    assert total == count * q + r;
    assert q < lo ==> count * (q + 1) <= count * lo;
    assert q > hi ==> count * q >= count * (hi + 1);
  }

  /** Well-formed, time-sorted input never meets the unsorted-input guard. */
  lemma SortedInputSucceeds(users: seq<User>, kinds: seq<string>, windowSec: int, numBreakdowns: nat)
    requires kinds != [] && windowSec >= 0 && AllParallel(users) && AllSorted(users)
    requires forall i :: 0 <= i < |users| ==> |users[i].breakdowns| == numBreakdowns
    ensures Result(users, kinds, windowSec, numBreakdowns).Rows?
  {
    var window := windowSec * SECOND;
    forall i | 0 <= i < |users| ensures !Backwards(users[i], |kinds|, window) {
      forall s | 0 < s < |Match(users[i], |kinds|, window)|
        ensures Delta(users[i], Match(users[i], |kinds|, window), s) >= 0
      {
        SortedHasNoNegativeDelta(users[i], |kinds|, window, s);
      }
    }
    assert FirstFault(users, |kinds|, window).None?;
  }
}
