/** Greedy step matching of one user's time-ordered events, and why it is optimal. */
module FunnelMatching {

  /** Times and step tags run in parallel; breakdowns place the user in a series. */
  datatype User = User(times: seq<int>, steps: seq<int>, breakdowns: seq<string>)

  predicate Parallel(u: User) { |u.times| == |u.steps| }

  ghost predicate TimeSorted(u: User) {
    forall i, j :: 0 <= i <= j < |u.times| ==> u.times[i] <= u.times[j]
  }

  /** Events tagged 0, 1, 2, ... in order of occurrence. */
  ghost predicate Chain(u: User, c: seq<nat>)
    requires Parallel(u)
  {
    && (forall k :: 0 <= k < |c| ==> c[k] < |u.steps| && u.steps[c[k]] == k)
    && (forall j, k :: 0 <= j < k < |c| ==> c[j] < c[k])
  }

  /** The chain converts within the window, counted from its step 0; a zero window is no limit. */
  ghost predicate InWindow(u: User, c: seq<nat>, window: nat)
    requires Parallel(u) && Chain(u, c)
  {
    c != [] && window > 0 ==> u.times[c[|c| - 1]] - u.times[c[0]] <= window
  }

  /** What the walk has matched when it stops, from event j on with `got` already matched. */
  function Walk(u: User, n: nat, window: nat, j: nat, got: seq<nat>): (idx: seq<nat>)
    requires Parallel(u) && j <= |u.times| && forall k :: 0 <= k < |got| ==> got[k] < |u.times|
    ensures got <= idx
    ensures forall k :: 0 <= k < |idx| ==> idx[k] < |u.times|
    decreases |u.times| - j
  {
    if j == |u.times| || |got| >= n then got
    else if u.steps[j] != |got| then Walk(u, n, window, j + 1, got)
    else if |got| > 0 && window > 0 && u.times[j] - u.times[got[0]] > window then got
    else Walk(u, n, window, j + 1, got + [j])
  }

  function Match(u: User, n: nat, window: nat): (idx: seq<nat>)
    requires Parallel(u)
    ensures forall k :: 0 <= k < |idx| ==> idx[k] < |u.times|
  {
    Walk(u, n, window, 0, [])
  }

  lemma ChainGrows(u: User, window: nat, j: nat, got: seq<nat>)
    requires Parallel(u) && Chain(u, got) && j < |u.times| && u.steps[j] == |got|
    requires forall k :: 0 <= k < |got| ==> got[k] < j
    requires got != [] && window > 0 ==> u.times[j] - u.times[got[0]] <= window
    ensures Chain(u, got + [j]) && InWindow(u, got + [j], window)
  {
  }

  lemma {:induction false} WalkIsChain(u: User, n: nat, window: nat, j: nat, got: seq<nat>)
    requires Parallel(u) && j <= |u.times| && Chain(u, got) && InWindow(u, got, window) && |got| <= n
    requires forall k :: 0 <= k < |got| ==> got[k] < j
    ensures var idx := Walk(u, n, window, j, got); Chain(u, idx) && InWindow(u, idx, window) && |idx| <= n
    decreases |u.times| - j
  {
    if j < |u.times| && |got| < n {
      if u.steps[j] != |got| {
        WalkIsChain(u, n, window, j + 1, got);
      } else if !(|got| > 0 && window > 0 && u.times[j] - u.times[got[0]] > window) {
        ChainGrows(u, window, j, got);
        hide Chain, InWindow;
        WalkIsChain(u, n, window, j + 1, got + [j]);
      }
    }
  }

  /** The walk stays ahead of any competing chain c: each match is at or before c's, and c's next
      event has not been passed. */
  lemma {:induction false} WalkDominates(u: User, n: nat, window: nat, j: nat, got: seq<nat>, c: seq<nat>)
    requires Parallel(u) && TimeSorted(u) && j <= |u.times|
    requires Chain(u, c) && InWindow(u, c, window) && |c| <= n
    requires forall k :: 0 <= k < |got| ==> got[k] < |u.times|
    requires got != [] && c != [] && window > 0 ==> c[0] == got[0]
    requires got == [] && c != [] && window > 0 ==> c[0] == FirstStepZero(u, j)
    requires |c| > |got| ==> c[|got|] >= j
    ensures |c| <= |Walk(u, n, window, j, got)|
    decreases |u.times| - j
  {
    if j < |u.times| && |got| < n {
      if u.steps[j] != |got| {
        WalkDominates(u, n, window, j + 1, got, c);
      } else if |got| > 0 && window > 0 && u.times[j] - u.times[got[0]] > window {
      } else {
        WalkDominates(u, n, window, j + 1, got + [j], c);
      }
    }
  }

  /** Index of the first step-0 event from j on, or the number of events. */
  function FirstStepZero(u: User, j: nat): nat
    requires Parallel(u) && j <= |u.times|
    decreases |u.times| - j
  {
    if j == |u.times| || u.steps[j] == 0 then j else FirstStepZero(u, j + 1)
  }

  /** Chains the walk competes with: any chain without a window, and with one those that start at
      the user's first step-0 event. */
  ghost predicate Anchored(u: User, c: seq<nat>, window: nat)
    requires Parallel(u)
  {
    c != [] && window > 0 ==> c[0] == FirstStepZero(u, 0)
  }

  lemma {:induction false} WalkStartsAtFirst(u: User, n: nat, window: nat, j: nat)
    requires Parallel(u) && j <= |u.times| && n > 0
    ensures var idx := Walk(u, n, window, j, []);
            && (idx != [] <==> FirstStepZero(u, j) < |u.times|)
            && (idx != [] ==> idx[0] == FirstStepZero(u, j))
    decreases |u.times| - j
  {
    if j < |u.times| && u.steps[j] != 0 { WalkStartsAtFirst(u, n, window, j + 1); }
  }

  /** The matched depth is the greatest length of any competing chain, and is reached by one. */
  lemma GreedyIsOptimal(u: User, n: nat, window: nat)
    requires Parallel(u) && TimeSorted(u) && n > 0
    ensures var idx := Match(u, n, window);
            && Chain(u, idx) && InWindow(u, idx, window) && Anchored(u, idx, window) && |idx| <= n
            && forall c :: Chain(u, c) && InWindow(u, c, window) && Anchored(u, c, window) && |c| <= n ==> |c| <= |idx|
  {
    WalkIsChain(u, n, window, 0, []);
    WalkStartsAtFirst(u, n, window, 0);
    forall c | Chain(u, c) && InWindow(u, c, window) && Anchored(u, c, window) && |c| <= n
      ensures |c| <= |Match(u, n, window)|
    {
      WalkDominates(u, n, window, 0, [], c);
    }
  }

  /** No chain within the window, wherever it starts, converts further than the match. */
  ghost predicate BestOfAll(u: User, n: nat, window: nat)
    requires Parallel(u)
  {
    forall c :: Chain(u, c) && InWindow(u, c, window) && |c| <= n ==> |c| <= |Match(u, n, window)|
  }

  /** Matching again from a later step-0 event never gets further. */
  predicate NoLaterAnchorWins(u: User, n: nat, window: nat)
    requires Parallel(u)
  {
    forall j :: 0 <= j < |u.times| && u.steps[j] == 0 ==> |Walk(u, n, window, j, [])| <= |Match(u, n, window)|
  }

  /** The match is the best of all windowed chains if and only if no later step-0 event, taken as the anchor, gets
      further. */
  lemma BestOfAllExactly(u: User, n: nat, window: nat)
    requires Parallel(u) && TimeSorted(u) && n > 0
    ensures BestOfAll(u, n, window) <==> NoLaterAnchorWins(u, n, window)
  {
    forall j | 0 <= j < |u.times| && u.steps[j] == 0
      ensures var c := Walk(u, n, window, j, []); Chain(u, c) && InWindow(u, c, window) && |c| <= n
    {
      WalkIsChain(u, n, window, j, []);
    }
    forall c | NoLaterAnchorWins(u, n, window) && Chain(u, c) && InWindow(u, c, window) && |c| <= n
      ensures |c| <= |Match(u, n, window)|
    {
      if c != [] { WalkDominates(u, n, window, c[0], [], c); }
    }
  }

  /** Only the first step-0 event is tried as an anchor: a later one may convert further. */
  lemma LaterAnchorsAreNotTried()
    ensures var u := User([0, 100, 105], [0, 0, 1], []);
            && Parallel(u) && Chain(u, [1, 2]) && InWindow(u, [1, 2], 10) && |Match(u, 2, 10)| == 1
  {
    var u := User([0, 100, 105], [0, 0, 1], []);
    assert Walk(u, 2, 10, 0, []) == Walk(u, 2, 10, 1, [0]);
    assert Walk(u, 2, 10, 1, [0]) == Walk(u, 2, 10, 2, [0]);
    assert Walk(u, 2, 10, 2, [0]) == [0];
  }

  /** Time from the previous matched step to step s. */
  function Delta(u: User, idx: seq<nat>, s: nat): int
    requires 0 < s < |idx| && forall k :: 0 <= k < |idx| ==> idx[k] < |u.times|
  {
    u.times[idx[s]] - u.times[idx[s - 1]]
  }

  /** The guard against unsorted input cannot fire on sorted input. */
  lemma SortedHasNoNegativeDelta(u: User, n: nat, window: nat, s: nat)
    requires Parallel(u) && TimeSorted(u) && 0 < s < |Match(u, n, window)|
    ensures Delta(u, Match(u, n, window), s) >= 0
  {
    WalkIsChain(u, n, window, 0, []);
  }

  /** The matching loop. */
  method MatchSteps(u: User, n: nat, window: nat) returns (stepTimes: seq<int>)
    requires Parallel(u)
    ensures |stepTimes| == |Match(u, n, window)|
    ensures forall s :: 0 <= s < |stepTimes| ==>
      Match(u, n, window)[s] < |u.times| && stepTimes[s] == u.times[Match(u, n, window)[s]]
  {
    stepTimes := [];
    ghost var idx: seq<nat> := [];
    for j := 0 to |u.times|
      invariant |stepTimes| == |idx|
      invariant forall s :: 0 <= s < |idx| ==> idx[s] < |u.times| && stepTimes[s] == u.times[idx[s]]
      invariant Walk(u, n, window, j, idx) == Match(u, n, window)
    {
      var matched := |stepTimes|;
      if matched >= n {
        break;
      }
      if u.steps[j] != matched {
        continue;
      }
      var t := u.times[j];
      if matched > 0 && window > 0 && t - stepTimes[0] > window {
        break;
      }
      stepTimes, idx := stepTimes + [t], idx + [j];
    }
  }
}
