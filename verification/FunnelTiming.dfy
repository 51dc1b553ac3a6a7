/** Per-breakdown step counts and conversion times over all users. */
module FunnelTiming {
  import opened Basics
  import opened Breakdowns
  import opened FunnelMatching
  import opened FunnelStats

  datatype Acc = Acc(count: nat, total: int, times: seq<int>)

  datatype Timing = Timing(avg: int, median: int, p95: int, distribution: seq<nat>)

  datatype Row = Row(stepIndex: nat, eventKind: string, breakdowns: seq<string>, value: real, timing: Option<Timing>)

  datatype Outcome = Rows(rows: seq<Row>) | NoKinds | NegativeWindow | BreakdownMismatch | ArrayMismatch | NegativeDelta

  function Key(u: User): string { BreakdownKey(u.breakdowns) }

  const ZERO := Acc(0, 0, [])

  function Zeros(n: nat): seq<Acc> { seq(n, _ => ZERO) }

  // ----- what the loops accumulate

  /** Step s gains one user, and past step 0 the time since the step before. */
  function Bump(acc: Acc, u: User, idx: seq<nat>, s: nat): Acc
    requires s < |idx| && forall k :: 0 <= k < |idx| ==> idx[k] < |u.times|
  {
    if s == 0 then acc.(count := acc.count + 1)
    else var d := Delta(u, idx, s); Acc(acc.count + 1, acc.total + d, acc.times + [d])
  }

  function AddUser(accs: seq<Acc>, u: User, n: nat, window: nat): (after: seq<Acc>)
    requires |accs| == n && Parallel(u)
    ensures |after| == n
  {
    var idx := Match(u, n, window);
    seq(n, s requires 0 <= s < n => if s < |idx| then Bump(accs[s], u, idx, s) else accs[s])
  }

  predicate AllParallel(users: seq<User>) { forall i :: 0 <= i < |users| ==> Parallel(users[i]) }

  /** Accumulators of the series `key` over the users in order. */
  function Accs(users: seq<User>, n: nat, window: nat, key: string): (accs: seq<Acc>)
    requires AllParallel(users)
    ensures |accs| == n
  {
    if users == [] then Zeros(n)
    else
      var front, u := users[..|users| - 1], users[|users| - 1];
      if Key(u) == key then AddUser(Accs(front, n, window, key), u, n, window) else Accs(front, n, window, key)
  }

  /** Series keys in order of first appearance. */
  function OrderedKeys(users: seq<User>): (keys: seq<string>)
    ensures forall i, j :: 0 <= i < j < |keys| ==> keys[i] != keys[j]
    ensures forall i :: 0 <= i < |users| ==> Key(users[i]) in keys
    ensures keys == [] <==> users == []
  {
    if users == [] then []
    else
      var keys := OrderedKeys(users[..|users| - 1]);
      var key := Key(users[|users| - 1]);
      if key in keys then keys else keys + [key]
  }

  function FirstBreakdowns(users: seq<User>, key: string): seq<string> {
    if users == [] then [] else if Key(users[0]) == key then users[0].breakdowns else FirstBreakdowns(users[1..], key)
  }

  function TimingOf(acc: Acc): Timing {
    var sorted := Sorted(acc.times);
    Timing(if acc.count > 0 then GoDiv(acc.total, acc.count) else 0,
           if sorted != [] then MedianSorted(sorted).value else 0,
           if sorted != [] then PercentileSorted(sorted, P95).value else 0,
           Histogram(sorted))
  }

  function RowOf(acc: Acc, i: nat, kind: string, breakdowns: seq<string>): Row {
    Row(i, kind, breakdowns, acc.count as real, if i == 0 then None else Some(TimingOf(acc)))
  }

  function SeriesRows(accs: seq<Acc>, kinds: seq<string>, breakdowns: seq<string>): seq<Row>
    requires |accs| == |kinds|
  {
    seq(|kinds|, i requires 0 <= i < |kinds| => RowOf(accs[i], i, kinds[i], breakdowns))
  }

  function AllRows(users: seq<User>, kinds: seq<string>, window: nat, keys: seq<string>): seq<Row>
    requires AllParallel(users)
  {
    if keys == [] then []
    else
      var front, key := keys[..|keys| - 1], keys[|keys| - 1];
      AllRows(users, kinds, window, front) +
      SeriesRows(Accs(users, |kinds|, window, key), kinds, FirstBreakdowns(users, key))
  }

  // ----- rejected inputs

  predicate Backwards(u: User, n: nat, window: nat)
    requires Parallel(u)
  {
    var idx := Match(u, n, window);
    exists s :: 0 < s < |idx| && Delta(u, idx, s) < 0
  }

  /** The first user whose arrays differ in length or whose matched times run backwards decides. */
  function FirstFault(users: seq<User>, n: nat, window: nat): (fault: Option<Outcome>)
    ensures fault.None? ==> AllParallel(users)
    ensures fault.None? <==> forall i :: 0 <= i < |users| ==> Parallel(users[i]) && !Backwards(users[i], n, window)
    ensures fault.Some? ==> fault.value in {ArrayMismatch, NegativeDelta}
  {
    if users == [] then None
    else if !Parallel(users[0]) then Some(ArrayMismatch)
    else if Backwards(users[0], n, window) then Some(NegativeDelta)
    else FirstFault(users[1..], n, window)
  }

  function Result(users: seq<User>, kinds: seq<string>, windowSec: int, numBreakdowns: nat): Outcome {
    if kinds == [] then NoKinds
    else if windowSec < 0 then NegativeWindow
    else if exists i :: 0 <= i < |users| && |users[i].breakdowns| != numBreakdowns then BreakdownMismatch
    else
      var window := windowSec * SECOND;
      match FirstFault(users, |kinds|, window)
      case Some(fault) => fault
      case None =>
        if users == [] then Rows(SeriesRows(Zeros(|kinds|), kinds, seq(numBreakdowns, _ => "")))
        else Rows(AllRows(users, kinds, window, OrderedKeys(users)))
  }

  /** The accumulating loops. */
  method ComputeFunnelTiming(users: seq<User>, kinds: seq<string>, windowSec: int, numBreakdowns: nat)
    returns (out: Outcome)
    ensures out == Result(users, kinds, windowSec, numBreakdowns)
  {
    var n := |kinds|;
    if n == 0 {
      return NoKinds;
    }
    if windowSec < 0 {
      return NegativeWindow;
    }
    var uniform := UniformBreakdowns(users, numBreakdowns);
    if !uniform {
      return BreakdownMismatch;
    }
    var window := windowSec * SECOND;
    var book, fault := AccumulateUsers(users, n, window);
    if fault.Some? {
      return fault.value;
    }
    BookKeys(users, n, window);
    if |book.keys| == 0 {
      var bds := seq(numBreakdowns, _ => "");
      var rows := EmitRows([], Zeros(n), kinds, bds);
      assert [] + SeriesRows(Zeros(n), kinds, bds) == SeriesRows(Zeros(n), kinds, bds);
      return Rows(rows);
    }
    var rows := EmitSeries(users, kinds, window, book);
    return Rows(rows);
  }

  method EmitSeries(users: seq<User>, kinds: seq<string>, window: nat, book: Book) returns (rows: seq<Row>)
    requires AllParallel(users) && book == BookOf(users, |kinds|, window)
    ensures rows == AllRows(users, kinds, window, OrderedKeys(users))
  {
    hide Match, AddUser, BookOf, OrderedKeys, Accs, FirstBreakdowns, SeriesRows;
    BookKeys(users, |kinds|, window);
    rows := [];
    for i := 0 to |book.keys|
      invariant rows == AllRows(users, kinds, window, book.keys[..i])
    {
      var key := book.keys[i];
      assert book.keys[..i + 1][..i] == book.keys[..i];
      BookEntry(users, |kinds|, window, key);
      rows := EmitRows(rows, book.accs[key], kinds, book.breakdowns[key]);
    }
    assert book.keys[..|book.keys|] == book.keys;
  }

  method UniformBreakdowns(users: seq<User>, numBreakdowns: nat) returns (uniform: bool)
    ensures uniform <==> forall i :: 0 <= i < |users| ==> |users[i].breakdowns| == numBreakdowns
  {
    for i := 0 to |users|
      invariant forall j :: 0 <= j < i ==> |users[j].breakdowns| == numBreakdowns
    {
      if |users[i].breakdowns| != numBreakdowns {
        return false;
      }
    }
    return true;
  }

  /** What the user loop fills: keys in order of appearance, and two maps over them. */
  datatype Book = Book(keys: seq<string>, breakdowns: map<string, seq<string>>, accs: map<string, seq<Acc>>)

  function Open(book: Book, u: User, n: nat): Book {
    var key := Key(u);
    if key in book.accs then book
    else Book(book.keys + [key], book.breakdowns[key := u.breakdowns], book.accs[key := Zeros(n)])
  }

  function Enter(book: Book, u: User, n: nat, window: nat): Book
    requires Parallel(u) && forall key :: key in book.accs ==> |book.accs[key]| == n
  {
    var ready := Open(book, u, n);
    ready.(accs := ready.accs[Key(u) := AddUser(ready.accs[Key(u)], u, n, window)])
  }

  function BookOf(users: seq<User>, n: nat, window: nat): (book: Book)
    requires AllParallel(users)
    ensures forall key :: key in book.accs ==> |book.accs[key]| == n
  {
    if users == [] then Book([], map[], map[])
    else Enter(BookOf(users[..|users| - 1], n, window), users[|users| - 1], n, window)
  }

  method AccumulateUsers(users: seq<User>, n: nat, window: nat) returns (book: Book, fault: Option<Outcome>)
    ensures fault == FirstFault(users, n, window)
    ensures fault.None? ==> book == BookOf(users, n, window)
  {
    hide FirstFault, Backwards, AddUser, BookOf, Key, AllParallel, Open, Enter;
    book := Book([], map[], map[]);
    NoBook(n, window);
    assert users[..0] == [] && users[0..] == users;
    for k := 0 to |users|
      invariant AllParallel(users[..k])
      invariant FirstFault(users, n, window) == FirstFault(users[k..], n, window)
      invariant book == BookOf(users[..k], n, window)
    {
      var u := users[k];
      FaultStep(users, k, n, window);
      if |u.times| != |u.steps| {
        return book, Some(ArrayMismatch);
      }
      var key := Key(u);
      NextBook(users, k, n, window);
      book := Open(book, u, n);
      var updated, ok := AccumulateUser(book.accs[key], u, n, window);
      if !ok {
        return book, Some(NegativeDelta);
      }
      book := book.(accs := book.accs[key := updated]);
    }
    assert users[..|users|] == users && users[|users|..] == [];
    FaultOfNone(n, window);
    fault := None;
  }

  lemma NoBook(n: nat, window: nat)
    ensures AllParallel([]) && BookOf([], n, window) == Book([], map[], map[])
  {
  }

  /** The book after one more user. */
  lemma NextBook(users: seq<User>, k: nat, n: nat, window: nat)
    requires k < |users| && AllParallel(users[..k]) && Parallel(users[k])
    ensures AllParallel(users[..k + 1])
    ensures var u, ready := users[k], Open(BookOf(users[..k], n, window), users[k], n);
            Key(u) in ready.accs && |ready.accs[Key(u)]| == n &&
            BookOf(users[..k + 1], n, window) ==
              ready.(accs := ready.accs[Key(u) := AddUser(ready.accs[Key(u)], u, n, window)])
  {
    hide Key, AddUser;
    assert users[..k + 1][..k] == users[..k] && users[..k + 1][k] == users[k];
    assert AllParallel(users[..k + 1]);
  }

  lemma FaultOfNone(n: nat, window: nat)
    ensures FirstFault([], n, window) == None
  {
  }

  lemma FaultStep(users: seq<User>, k: nat, n: nat, window: nat)
    requires k < |users|
    ensures FirstFault(users[k..], n, window) ==
            if !Parallel(users[k]) then Some(ArrayMismatch)
            else if Backwards(users[k], n, window) then Some(NegativeDelta)
            else FirstFault(users[k + 1..], n, window)
  {
    assert users[k..][1..] == users[k + 1..];
  }

  lemma {:induction false} BookKeys(users: seq<User>, n: nat, window: nat)
    requires AllParallel(users)
    ensures var book := BookOf(users, n, window);
            book.keys == OrderedKeys(users) && book.accs.Keys == book.breakdowns.Keys == set key | key in book.keys
  {
    hide AddUser, Match, Key;
    if users != [] { BookKeys(users[..|users| - 1], n, window); }
  }

  /** The book holds exactly the accumulators and the labels of each series. */
  lemma {:induction false} BookEntry(users: seq<User>, n: nat, window: nat, key: string)
    requires AllParallel(users)
    ensures var book := BookOf(users, n, window);
            if key in OrderedKeys(users) then
              && key in book.accs && key in book.breakdowns
              && book.accs[key] == Accs(users, n, window, key)
              && book.breakdowns[key] == FirstBreakdowns(users, key)
            else Accs(users, n, window, key) == Zeros(n)
  {
    hide AddUser, Match, FirstBreakdowns, Key;
    if users != [] {
      var front, u := users[..|users| - 1], users[|users| - 1];
      assert users == front + [u];
      BookKeys(front, n, window);
      BookEntry(front, n, window, key);
      FirstBreakdownsSnoc(front, u, key);
    }
  }

  lemma FirstBreakdownsSnoc(users: seq<User>, u: User, key: string)
    ensures FirstBreakdowns(users + [u], key) ==
            if key !in OrderedKeys(users) && key == Key(u) then u.breakdowns else FirstBreakdowns(users, key)
  {
    KeysAreUsed(users, key);
    FirstOfAppend(users, u, key);
  }

  lemma {:induction false} KeysAreUsed(users: seq<User>, key: string)
    ensures key in OrderedKeys(users) <==> exists i :: 0 <= i < |users| && Key(users[i]) == key
  {
    if users != [] {
      var n := |users| - 1;
      KeysAreUsed(users[..n], key);
      assert forall i :: 0 <= i < n ==> users[..n][i] == users[i];
    }
  }

  lemma {:induction false} FirstOfAppend(users: seq<User>, u: User, key: string)
    ensures FirstBreakdowns(users + [u], key) ==
            if (exists i :: 0 <= i < |users| && Key(users[i]) == key) then FirstBreakdowns(users, key)
            else if Key(u) == key then u.breakdowns else []
    ensures !(exists i :: 0 <= i < |users| && Key(users[i]) == key) ==> FirstBreakdowns(users, key) == []
  {
    if users != [] {
      FirstOfAppend(users[1..], u, key);
      assert (users + [u])[1..] == users[1..] + [u];
      assert forall i :: 0 <= i < |users| - 1 ==> users[1..][i] == users[i + 1];
      assert (exists i :: 0 <= i < |users| && Key(users[i]) == key) <==>
             Key(users[0]) == key || exists i :: 0 <= i < |users| - 1 && Key(users[1..][i]) == key;
    }
  }

  /** Folds one matched user into a series; stops at the first backward step. */
  method AccumulateUser(before: seq<Acc>, u: User, n: nat, window: nat) returns (accs: seq<Acc>, ok: bool)
    requires |before| == n && Parallel(u)
    ensures ok == !Backwards(u, n, window)
    ensures ok ==> accs == AddUser(before, u, n, window)
  {
    accs := before;
    var stepTimes := MatchSteps(u, n, window);
    ghost var idx := Match(u, n, window);
    WalkLength(u, n, window, 0, []);
    for s := 0 to |stepTimes|
      invariant |accs| == n
      invariant forall k :: 0 < k < s ==> Delta(u, idx, k) >= 0
      invariant forall k :: 0 <= k < n ==> accs[k] == if k < s then Bump(before[k], u, idx, k) else before[k]
    {
      accs := accs[s := accs[s].(count := accs[s].count + 1)];
      if s > 0 {
        var delta := stepTimes[s] - stepTimes[s - 1];
        if delta < 0 {
          assert Delta(u, idx, s) < 0;
          return accs, false;
        }
        accs := accs[s := accs[s].(total := accs[s].total + delta, times := accs[s].times + [delta])];
      }
    }
    ok := true;
  }

  lemma {:induction false} WalkLength(u: User, n: nat, window: nat, j: nat, got: seq<nat>)
    requires Parallel(u) && j <= |u.times| && |got| <= n && forall k :: 0 <= k < |got| ==> got[k] < |u.times|
    ensures |Walk(u, n, window, j, got)| <= n
    decreases |u.times| - j
  {
    if j < |u.times| && |got| < n {
      WalkLength(u, n, window, j + 1, got);
      WalkLength(u, n, window, j + 1, got + [j]);
    }
  }

  method EmitRows(rows: seq<Row>, accs: seq<Acc>, kinds: seq<string>, bds: seq<string>) returns (out: seq<Row>)
    requires |accs| == |kinds|
    ensures out == rows + SeriesRows(accs, kinds, bds)
  {
    out := rows;
    for i := 0 to |kinds|
      invariant out == rows + SeriesRows(accs, kinds, bds)[..i]
    {
      var row := Row(i, kinds[i], bds, accs[i].count as real, None);
      if i > 0 {
        var timing := ComputeTiming(accs[i]);
        row := row.(timing := Some(timing));
      }
      assert row == SeriesRows(accs, kinds, bds)[i];
      out := out + [row];
    }
  }

  method ComputeTiming(acc: Acc) returns (timing: Timing)
    ensures timing == TimingOf(acc)
  {
    timing := Timing(0, 0, 0, seq(|UPPER| + 1, _ => 0));
    if acc.count > 0 {
      timing := timing.(avg := GoDiv(acc.total, acc.count));
    }
    var sorted := Sorted(acc.times);
    assert |sorted| == |acc.times|;
    if |acc.times| > 0 {
      var counts := DistributionCountsSorted(sorted);
      timing := timing.(median := MedianSorted(sorted).value, p95 := PercentileSorted(sorted, P95).value,
                        distribution := counts);
    } else {
      assert timing.distribution == Histogram(sorted);
    }
  }
}
