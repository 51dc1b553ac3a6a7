/** In which order a grouping returns its series and their points. */
module TrendSeriesOrder {
  import opened Basics
  import opened Breakdowns
  import opened TrendSeries
  import opened TrendSeriesLaws
  import Exact = TrendSeriesExact

  // ----- points

  ghost predicate InTime(points: seq<Point>) {
    forall i, j :: 0 <= i < j < |points| ==> points[i].time <= points[j].time
  }

  lemma SortedInTime(points: seq<Point>)
    ensures InTime(SortPoints(points)) && multiset(SortPoints(points)) == multiset(points)
  {
    var less := (a: Point, b: Point) => a.time < b.time;
    SortSorts(points, less);
    SortKeeps(points, less);
  }

  lemma EmittedInTime(entries: Entries, keys: seq<SeriesKey>)
    requires forall k :: k in keys ==> k in entries
    ensures forall s :: s in EmitSeries(entries, keys) ==> InTime(s.points)
  {
    hide SortPoints, InTime;
    var series := EmitSeries(entries, keys);
    forall s | s in series ensures InTime(s.points) {
      var i :| 0 <= i < |series| && series[i] == s;
      SortedInTime(entries[keys[i]].points);
    }
  }

  /** Every series that is returned has its points in order of time. */
  lemma PointsInTime(rows: seq<TrendRow>, arity: nat, limit: int)
    requires Group(rows, arity, limit).Grouped?
    ensures forall s :: s in Group(rows, arity, limit).series ==> InTime(s.points)
  {
    hide EmitSeries, InTime, EntriesOf, Keys, TopN;
    KeysMatch(rows);
    var entries, keys := EntriesOf(rows), Keys(rows);
    if limit > 0 && arity > 0 {
      var (kept, left) := TopN(entries, keys, limit, arity);
      EmittedInTime(left, kept);
    } else {
      EmittedInTime(entries, keys);
    }
  }

  // ----- series, unlimited: by first appearance

  /** Position of the first row of a key. */
  function FirstRow(rows: seq<TrendRow>, key: SeriesKey): nat {
    if rows == [] || KeyOf(rows[0]) == key then 0 else 1 + FirstRow(rows[1..], key)
  }

  lemma {:induction false} FirstRowSnoc(front: seq<TrendRow>, r: TrendRow, key: SeriesKey)
    ensures FirstRow(front, key) <= |front|
    ensures FirstRow(front, key) < |front| ==> FirstRow(front + [r], key) == FirstRow(front, key)
    ensures FirstRow(front, key) == |front| && KeyOf(r) == key ==> FirstRow(front + [r], key) == |front|
  {
    hide KeyOf;
    if front != [] {
      FirstRowSnoc(front[1..], r, key);
      assert (front + [r])[1..] == front[1..] + [r];
    }
  }

  /** Without a limit the series come in the order in which their rows first appear. */
  lemma {:induction false} KeysByAppearance(rows: seq<TrendRow>)
    ensures forall k :: k in Keys(rows) ==> FirstRow(rows, k) < |rows|
    ensures forall i, j :: 0 <= i < j < |Keys(rows)| ==> FirstRow(rows, Keys(rows)[i]) < FirstRow(rows, Keys(rows)[j])
    ensures forall key :: FirstRow(rows, key) < |rows| ==> key in Keys(rows)
  {
    hide KeyOf;
    if rows != [] {
      var front, r := rows[..|rows| - 1], rows[|rows| - 1];
      KeysByAppearance(front);
      assert rows == front + [r];
      forall key { FirstRowSnoc(front, r, key); }
      forall key | FirstRow(rows, key) < |rows| ensures key in Keys(rows) {
        if FirstRow(front, key) == |front| { AppearsLast(front, r, key); }
      }
    }
  }

  lemma {:induction false} AppearsLast(front: seq<TrendRow>, r: TrendRow, key: SeriesKey)
    requires FirstRow(front, key) == |front| && FirstRow(front + [r], key) <= |front|
    ensures KeyOf(r) == key
  {
    hide KeyOf;
    if front != [] {
      assert (front + [r])[1..] == front[1..] + [r];
      AppearsLast(front[1..], r, key);
    } else {
      assert ([] + [r])[0] == r && ([] + [r])[1..] == [];
    }
  }

  // ----- series, limited: by kind, then by rank, and `$others` last

  ghost predicate Follows(entries: Entries, arity: nat, a: SeriesKey, b: SeriesKey) {
    Before(a.kind, b.kind) || (a.kind == b.kind && (b == OthersKey(b.kind, arity) || Beats(entries, a, b)))
  }

  ghost predicate InOrder(entries: Entries, arity: nat, keys: seq<SeriesKey>) {
    forall i, j :: 0 <= i < j < |keys| ==> Follows(entries, arity, keys[i], keys[j])
  }

  lemma KeptInOrder(entries: Entries, keys: seq<SeriesKey>, kind: string, limit: nat, arity: nat)
    requires Distinct(keys) && (forall k :: k in keys ==> k in entries)
    ensures var kept := FoldAlone(entries, keys, kind, limit, arity).0;
      InOrder(entries, arity, kept) && forall k :: k in kept ==> k.kind == kind
  {
    hide OthersKey, Beats, KeysOfKind;
    var ks := KeysOfKind(keys, kind);
    KeysOfKindDistinct(keys, kind);
    KeysOfKindIn(keys, kind);
    RankedStrictly(entries, ks, kind);
    RankedIn(entries, keys, kind);
  }

  lemma {:induction false} FoldedInOrder(entries: Entries, keys: seq<SeriesKey>, kinds: seq<string>, limit: nat,
                                         arity: nat)
    requires Distinct(kinds) && Distinct(keys) && (forall k :: k in keys ==> k in entries)
    requires forall i, j :: 0 <= i < j < |kinds| ==> Before(kinds[i], kinds[j])
    ensures InOrder(entries, arity, FoldKinds(entries, keys, kinds, limit, arity).0)
  {
    if kinds != [] {
      var n := |kinds| - 1;
      FoldedInOrder(entries, keys, kinds[..n], limit, arity);
      LastKind(entries, keys, kinds, limit, arity);
      KeptInOrder(entries, keys, kinds[n], limit, arity);
      hide FoldKinds, FoldAlone, Follows;
      var front := FoldKinds(entries, keys, kinds[..n], limit, arity).0;
      Concatenated(entries, arity, front, FoldAlone(entries, keys, kinds[n], limit, arity).0, kinds);
    }
  }

  /** Keys of earlier kinds, then those of the last kind. */
  lemma Concatenated(entries: Entries, arity: nat, front: seq<SeriesKey>, kept: seq<SeriesKey>, kinds: seq<string>)
    requires kinds != [] && InOrder(entries, arity, front) && InOrder(entries, arity, kept)
    requires forall k :: k in front ==> k.kind in kinds[..|kinds| - 1]
    requires forall k :: k in kept ==> k.kind == kinds[|kinds| - 1]
    requires forall i, j :: 0 <= i < j < |kinds| ==> Before(kinds[i], kinds[j])
    ensures InOrder(entries, arity, front + kept)
  {
    hide OthersKey, Beats, Before;
    var n, all := |kinds| - 1, front + kept;
    forall i, j | 0 <= i < j < |all| ensures Follows(entries, arity, all[i], all[j]) {
      if i < |front| <= j {
        assert all[i] in front && all[j] in kept;
        var m :| 0 <= m < n && kinds[..n][m] == all[i].kind;
        assert kinds[m] == all[i].kind;
      }
    }
  }

  lemma LastKind(entries: Entries, keys: seq<SeriesKey>, kinds: seq<string>, limit: nat, arity: nat)
    requires Distinct(kinds) && kinds != [] && forall k :: k in keys ==> k in entries
    ensures var n := |kinds| - 1;
      var front := FoldKinds(entries, keys, kinds[..n], limit, arity).0;
      && FoldKinds(entries, keys, kinds, limit, arity).0 == front + FoldAlone(entries, keys, kinds[n], limit, arity).0
      && forall k :: k in front ==> k.kind in kinds[..n]
  {
    hide FoldKind, Ranked, KeysOfKind, Agree;
    var n := |kinds| - 1;
    FoldNextKind(entries, keys, kinds, n, limit, arity);
    assert kinds[..n + 1] == kinds && kinds[n] !in kinds[..n];
    FoldKindsPerKind(entries, keys, kinds[..n], limit, arity, kinds[n]);
    SameFold(FoldKinds(entries, keys, kinds[..n], limit, arity).1, entries, keys, kinds[n], limit, arity);
  }

  lemma KindsInOrder(keys: seq<SeriesKey>)
    ensures var kinds := SortedKinds(keys); forall i, j :: 0 <= i < j < |kinds| ==> Before(kinds[i], kinds[j])
  {
    forall a, b { BeforeAsymmetric(a, b); }
    forall a, b, c ensures !Before(b, a) && !Before(c, b) ==> !Before(c, a) {
      BeforeTotal(a, b);
      BeforeTotal(b, c);
      BeforeAsymmetric(a, c);
      if Before(a, b) && Before(b, c) { BeforeTransitive(a, b, c); }
    }
    SortSorts(KindsOf(keys), Before);
    var kinds := SortedKinds(keys);
    forall i, j | 0 <= i < j < |kinds| ensures Before(kinds[i], kinds[j]) { BeforeTotal(kinds[i], kinds[j]); }
  }

  /** With a limit the series come by kind, within a kind the larger total first and ties by breakdown, and `$others`
      behind the others of its kind. */
  lemma SeriesInOrder(rows: seq<TrendRow>, arity: nat, limit: nat)
    requires forall k :: k in Keys(rows) ==> k in EntriesOf(rows)
    ensures InOrder(EntriesOf(rows), arity, TopN(EntriesOf(rows), Keys(rows), limit, arity).0)
  {
    KeysMatch(rows);
    hide EntriesOf, Keys, SortedKinds, Before, FoldKinds, InOrder;
    KindsInOrder(Keys(rows));
    FoldedInOrder(EntriesOf(rows), Keys(rows), SortedKinds(Keys(rows)), limit, arity);
  }
}
