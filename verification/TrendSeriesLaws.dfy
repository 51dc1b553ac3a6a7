/** Folding conserves every instant's sum, keeps at most limit + 1 series of a kind, and keeps the
    largest ones. */
module TrendSeriesLaws {
  import opened Basics
  import opened Breakdowns
  import opened TrendSeries

  // ----- sums at one instant

  function RowsAt(rows: seq<TrendRow>, kind: string, t: int): real {
    if rows == [] then 0.0
    else
      var r := rows[|rows| - 1];
      RowsAt(rows[..|rows| - 1], kind, t) + if r.kind == kind && r.time == t then r.value else 0.0
  }

  function SeriesAt(series: seq<Series>, kind: string, t: int): real {
    if series == [] then 0.0
    else (if series[0].kind == kind then At(series[0].points, t) else 0.0) + SeriesAt(series[1..], kind, t)
  }

  function KindAt(entries: Entries, keys: seq<SeriesKey>, kind: string, t: int): real {
    if keys == [] then 0.0
    else
      (if keys[0].kind == kind && keys[0] in entries then At(entries[keys[0]].points, t) else 0.0)
      + KindAt(entries, keys[1..], kind, t)
  }

  lemma {:induction false} KindAtAppend(entries: Entries, a: seq<SeriesKey>, b: seq<SeriesKey>, kind: string, t: int)
    ensures KindAt(entries, a + b, kind, t) == KindAt(entries, a, kind, t) + KindAt(entries, b, kind, t)
  {
    if a == [] {
      assert a + b == b;
    } else {
      assert (a + b)[1..] == a[1..] + b;
      KindAtAppend(entries, a[1..], b, kind, t);
    }
  }

  /** Only the entries of the kind matter. */
  lemma {:induction false} KindAtAgrees(entries: Entries, other: Entries, keys: seq<SeriesKey>, kind: string, t: int)
    requires forall k :: k in keys && k.kind == kind ==>
               (k in entries <==> k in other) && (k in entries ==> entries[k].points == other[k].points)
    ensures KindAt(entries, keys, kind, t) == KindAt(other, keys, kind, t)
  {
    if keys != [] { KindAtAgrees(entries, other, keys[1..], kind, t); }
  }

  lemma {:induction false} KindAtOther(entries: Entries, keys: seq<SeriesKey>, kind: string, t: int)
    requires forall k :: k in keys ==> k.kind != kind
    ensures KindAt(entries, keys, kind, t) == 0.0
  {
    if keys != [] { KindAtOther(entries, keys[1..], kind, t); }
  }

  lemma {:induction false} KindAtInsert(entries: Entries, x: SeriesKey, keys: seq<SeriesKey>,
                                        less: (SeriesKey, SeriesKey) -> bool, kind: string, t: int)
    ensures KindAt(entries, Insert(x, keys, less), kind, t) == KindAt(entries, [x] + keys, kind, t)
  {
    if keys != [] && less(keys[0], x) {
      KindAtInsert(entries, x, keys[1..], less, kind, t);
      assert Insert(x, keys, less)[1..] == Insert(x, keys[1..], less);
      assert ([x] + keys)[1..] == keys && ([x] + keys[1..])[1..] == keys[1..];
    }
  }

  lemma {:induction false} KindAtSort(entries: Entries, keys: seq<SeriesKey>,
                                      less: (SeriesKey, SeriesKey) -> bool, kind: string, t: int)
    ensures KindAt(entries, Sort(keys, less), kind, t) == KindAt(entries, keys, kind, t)
  {
    if keys != [] {
      KindAtSort(entries, keys[1..], less, kind, t);
      KindAtInsert(entries, keys[0], Sort(keys[1..], less), less, kind, t);
      assert ([keys[0]] + Sort(keys[1..], less))[1..] == Sort(keys[1..], less);
    }
  }

  lemma {:induction false} KindAtFilter(entries: Entries, keys: seq<SeriesKey>, kind: string, t: int)
    ensures KindAt(entries, KeysOfKind(keys, kind), kind, t) == KindAt(entries, keys, kind, t)
  {
    if keys != [] {
      var n := |keys| - 1;
      KindAtFilter(entries, keys[..n], kind, t);
      assert keys == keys[..n] + [keys[n]];
      KindAtAppend(entries, keys[..n], [keys[n]], kind, t);
      KindAtAppend(entries, KeysOfKind(keys[..n], kind), [keys[n]], kind, t);
    }
  }

  // ----- points

  lemma {:induction false} AtAppend(a: seq<Point>, b: seq<Point>, t: int)
    ensures At(a + b, t) == At(a, t) + At(b, t)
  {
    if a == [] {
      assert a + b == b;
    } else {
      assert (a + b)[1..] == a[1..] + b;
      AtAppend(a[1..], b, t);
    }
  }

  lemma {:induction false} MergePointAt(dst: seq<Point>, p: Point, t: int)
    ensures At(MergePoint(dst, p), t) == At(dst, t) + if p.time == t then p.value else 0.0
  {
    if dst != [] {
      if dst[0].time == p.time {
        assert MergePoint(dst, p)[1..] == dst[1..];
      } else {
        MergePointAt(dst[1..], p, t);
        assert MergePoint(dst, p)[1..] == MergePoint(dst[1..], p);
      }
    }
  }

  lemma {:induction false} MergePointsAt(dst: seq<Point>, points: seq<Point>, t: int)
    ensures At(MergePoints(dst, points), t) == At(dst, t) + At(points, t)
  {
    if points != [] {
      var n := |points| - 1;
      MergePointsAt(dst, points[..n], t);
      MergePointAt(MergePoints(dst, points[..n]), points[n], t);
      assert points == points[..n] + [points[n]];
      AtAppend(points[..n], [points[n]], t);
    }
  }

  /** Merging keeps one point per instant. */
  lemma {:induction false} MergePointOneEach(dst: seq<Point>, p: Point)
    requires OneEach(dst)
    ensures OneEach(MergePoint(dst, p))
    ensures forall i :: 0 <= i < |MergePoint(dst, p)| ==>
              MergePoint(dst, p)[i].time == p.time ||
              exists j :: 0 <= j < |dst| && dst[j].time == MergePoint(dst, p)[i].time
  {
    if dst != [] && dst[0].time != p.time {
      MergePointOneEach(dst[1..], p);
      var merged := MergePoint(dst[1..], p);
      forall i | 0 <= i < |merged| ensures merged[i].time != dst[0].time {
        if merged[i].time != p.time {
          var j :| 0 <= j < |dst[1..]| && dst[1..][j].time == merged[i].time;
          assert dst[j + 1].time == merged[i].time;
        }
      }
      forall i | 0 <= i < |merged| && merged[i].time != p.time
        ensures exists j :: 0 <= j < |dst| && dst[j].time == merged[i].time
      {
        var j :| 0 <= j < |dst[1..]| && dst[1..][j].time == merged[i].time;
        assert dst[j + 1].time == merged[i].time;
      }
    }
  }

  lemma {:induction false} MergePointsOneEach(dst: seq<Point>, points: seq<Point>)
    requires OneEach(dst)
    ensures OneEach(MergePoints(dst, points))
  {
    if points != [] {
      MergePointsOneEach(dst, points[..|points| - 1]);
      MergePointOneEach(MergePoints(dst, points[..|points| - 1]), points[|points| - 1]);
    }
  }

  lemma {:induction false} AbsorbAt(entries: Entries, others: Entry, rest: seq<SeriesKey>, kind: string, t: int)
    requires forall k :: k in rest ==> k in entries && k.kind == kind
    ensures At(Absorb(entries, others, rest).points, t) == At(others.points, t) + KindAt(entries, rest, kind, t)
    ensures OneEach(others.points) ==> OneEach(Absorb(entries, others, rest).points)
    ensures Absorb(entries, others, rest).kind == others.kind
    ensures Absorb(entries, others, rest).breakdowns == others.breakdowns
  {
    if rest != [] {
      var n := |rest| - 1;
      AbsorbAt(entries, others, rest[..n], kind, t);
      var o := Absorb(entries, others, rest[..n]);
      MergePointsAt(o.points, entries[rest[n]].points, t);
      if OneEach(others.points) { MergePointsOneEach(o.points, entries[rest[n]].points); }
      assert rest == rest[..n] + [rest[n]];
      KindAtAppend(entries, rest[..n], [rest[n]], kind, t);
    }
  }

  lemma AtNone(t: int)
    ensures At([], t) == 0.0
  {
  }

  lemma {:induction false} AtInsert(x: Point, s: seq<Point>, less: (Point, Point) -> bool, t: int)
    ensures At(Insert(x, s, less), t) == At([x] + s, t)
  {
    if s != [] && less(s[0], x) {
      AtInsert(x, s[1..], less, t);
      assert Insert(x, s, less)[1..] == Insert(x, s[1..], less);
      assert ([x] + s)[1..] == s && ([x] + s[1..])[1..] == s[1..];
    }
  }

  lemma {:induction false} AtSort(s: seq<Point>, less: (Point, Point) -> bool, t: int)
    ensures At(Sort(s, less), t) == At(s, t)
  {
    if s != [] {
      AtSort(s[1..], less, t);
      AtInsert(s[0], Sort(s[1..], less), less, t);
      assert ([s[0]] + Sort(s[1..], less))[1..] == Sort(s[1..], less);
    }
  }

  // ----- collecting and emitting

  lemma {:induction false} CollectedAt(rows: seq<TrendRow>, kind: string, t: int)
    ensures KindAt(EntriesOf(rows), Keys(rows), kind, t) == RowsAt(rows, kind, t)
    ensures forall k :: k in EntriesOf(rows) ==> EntriesOf(rows)[k].kind == k.kind
  {
    hide BreakdownKey;
    if rows != [] {
      var front, r := rows[..|rows| - 1], rows[|rows| - 1];
      CollectedAt(front, kind, t);
      KeysMatch(front);
      AddRowAt(EntriesOf(front), Keys(front), r, kind, t);
    }
  }

  lemma AddRowAt(entries: Entries, keys: seq<SeriesKey>, r: TrendRow, kind: string, t: int)
    requires Distinct(keys) && forall k :: k in keys <==> k in entries
    ensures var longer := if KeyOf(r) in keys then keys else keys + [KeyOf(r)];
            KindAt(AddRow(entries, r), longer, kind, t) ==
            KindAt(entries, keys, kind, t) + if r.kind == kind && r.time == t then r.value else 0.0
  {
    hide BreakdownKey, At, AddRow, KindAt;
    var key, after := KeyOf(r), AddRow(entries, r);
    AddedPoints(entries, r, t);
    if key in keys {
      var a, b := SplitAround(keys, key);
      OneEntryGrows(entries, after, a, key, b, kind, t);
    } else {
      KindAtAppend(after, keys, [key], kind, t);
      KindAtOne(after, key, kind, t);
      KindAtAgrees(entries, after, keys, kind, t);
    }
  }

  lemma SplitAround(keys: seq<SeriesKey>, key: SeriesKey) returns (a: seq<SeriesKey>, b: seq<SeriesKey>)
    requires Distinct(keys) && key in keys
    ensures keys == a + ([key] + b) && key !in a && key !in b
    ensures forall k :: k in a || k in b ==> k in keys
  {
    var i :| 0 <= i < |keys| && keys[i] == key;
    a, b := keys[..i], keys[i + 1..];
  }

  lemma KindAtOne(entries: Entries, key: SeriesKey, kind: string, t: int)
    requires key in entries
    ensures KindAt(entries, [key], kind, t) == if key.kind == kind then At(entries[key].points, t) else 0.0
  {
  }

  lemma AddedPoints(entries: Entries, r: TrendRow, t: int)
    ensures var key, after := KeyOf(r), AddRow(entries, r);
            && key in after
            && (forall k :: k != key ==> (k in entries <==> k in after) && (k in entries ==> entries[k] == after[k]))
            && At(after[key].points, t) ==
            (if key in entries then At(entries[key].points, t) else 0.0) + if r.time == t then r.value else 0.0
  {
    hide BreakdownKey;
    var key := KeyOf(r);
    AtAppend(if key in entries then entries[key].points else [], [Point(r.time, r.value)], t);
  }

  lemma OneEntryGrows(entries: Entries, after: Entries, a: seq<SeriesKey>, key: SeriesKey, b: seq<SeriesKey>,
                      kind: string, t: int)
    requires key in entries && key in after && key !in a && key !in b
    requires forall k :: k in a || k in b ==>
      (k in entries <==> k in after) && (k in entries ==> entries[k] == after[k])
    ensures KindAt(after, a + ([key] + b), kind, t) - KindAt(entries, a + ([key] + b), kind, t) ==
            if key.kind == kind then At(after[key].points, t) - At(entries[key].points, t) else 0.0
  {
    hide At;
    KindAtAppend(entries, a, [key] + b, kind, t);
    KindAtAppend(after, a, [key] + b, kind, t);
    assert ([key] + b)[1..] == b;
    KindAtAgrees(entries, after, a, kind, t);
    KindAtAgrees(entries, after, b, kind, t);
  }

  ghost predicate KindsMatch(entries: Entries) {
    forall k :: k in entries ==> entries[k].kind == k.kind
  }

  lemma {:induction false} EmittedAt(entries: Entries, keys: seq<SeriesKey>, kind: string, t: int)
    requires KindsMatch(entries) && forall k :: k in keys ==> k in entries
    ensures SeriesAt(EmitSeries(entries, keys), kind, t) == KindAt(entries, keys, kind, t)
  {
    if keys != [] {
      hide SortPoints;
      var series := EmitSeries(entries, keys);
      assert series[1..] == EmitSeries(entries, keys[1..]);
      EmittedAt(entries, keys[1..], kind, t);
      SortedPointsAt(entries[keys[0]].points, t);
    }
  }

  lemma SortedPointsAt(points: seq<Point>, t: int)
    ensures At(SortPoints(points), t) == At(points, t)
  {
    AtSort(points, (a: Point, b: Point) => a.time < b.time, t);
  }

  // ----- ranking

  lemma BeatsIsWeak(entries: Entries)
    ensures forall a, b :: Beats(entries, a, b) ==> !Beats(entries, b, a)
    ensures forall a, b, c :: Beats(entries, a, b) && Beats(entries, b, c) ==> Beats(entries, a, c)
  {
    forall a, b | Beats(entries, a, b) ensures !Beats(entries, b, a) {
      BeforeAsymmetric(a.breakdown, b.breakdown);
    }
    forall a, b, c | Beats(entries, a, b) && Beats(entries, b, c) ensures Beats(entries, a, c) {
      if Before(a.breakdown, b.breakdown) && Before(b.breakdown, c.breakdown) {
        BeforeTransitive(a.breakdown, b.breakdown, c.breakdown);
      }
    }
  }

  /** Two keys of one kind are always ranked one way or the other. */
  lemma BeatsIsTotal(entries: Entries, a: SeriesKey, b: SeriesKey)
    requires a in entries && b in entries && a.kind == b.kind
    ensures a == b || Beats(entries, a, b) || Beats(entries, b, a)
  {
    BeforeTotal(a.breakdown, b.breakdown);
  }

  /** In a ranked list of one kind every key beats every later one. */
  ghost predicate StrictlyRanked(entries: Entries, ranked: seq<SeriesKey>) {
    forall i, j :: 0 <= i < j < |ranked| ==> Beats(entries, ranked[i], ranked[j])
  }

  lemma {:induction false} InsertRanks(entries: Entries, x: SeriesKey, s: seq<SeriesKey>)
    requires StrictlyRanked(entries, s) && x in entries && x !in s
    requires forall k :: k in s ==> k in entries && k.kind == x.kind
    ensures StrictlyRanked(entries, Insert(x, s, (a: SeriesKey, b: SeriesKey) => Beats(entries, a, b)))
  {
    hide Beats;
    var less := (a: SeriesKey, b: SeriesKey) => Beats(entries, a, b);
    if s != [] {
      BeatsIsTotal(entries, x, s[0]);
      BeatsIsWeak(entries);
      if less(s[0], x) {
        InsertRanks(entries, x, s[1..]);
        InsertKeeps(x, s[1..], less);
        var rest := Insert(x, s[1..], less);
        SameElements(rest, [x] + s[1..]);
        forall j | 0 <= j < |rest| ensures Beats(entries, s[0], rest[j]) {
          assert rest[j] in [x] + s[1..];
          if rest[j] != x {
            var m :| 0 <= m < |s[1..]| && s[1..][m] == rest[j];
            assert s[m + 1] == rest[j];
          }
        }
      }
    }
  }

  lemma {:induction false} RankedStrictly(entries: Entries, ks: seq<SeriesKey>, kind: string)
    requires Distinct(ks) && forall k :: k in ks ==> k in entries && k.kind == kind
    ensures StrictlyRanked(entries, Ranked(entries, ks))
    ensures forall k :: k in Ranked(entries, ks) <==> k in ks
  {
    var less := (a: SeriesKey, b: SeriesKey) => Beats(entries, a, b);
    SortKeeps(ks, less);
    SameElements(Sort(ks, less), ks);
    if ks != [] {
      assert ks[0] !in ks[1..];
      RankedStrictly(entries, ks[1..], kind);
      InsertRanks(entries, ks[0], Ranked(entries, ks[1..]));
    }
  }

  /** The number of keys that beat k is its position. */
  lemma RankIsPosition(entries: Entries, ranked: seq<SeriesKey>, i: nat)
    requires StrictlyRanked(entries, ranked) && i < |ranked|
    ensures |set k | k in ranked && Beats(entries, k, ranked[i])| == i
  {
    hide Beats;
    BeatsIsWeak(entries);
    assert (set k | k in ranked && Beats(entries, k, ranked[i])) == set k | k in ranked[..i];
    SizeOfDistinct(ranked[..i]);
  }

  lemma {:induction false} SizeOfDistinct(s: seq<SeriesKey>)
    requires Distinct(s)
    ensures |set k | k in s| == |s|
  {
    if s != [] {
      var n := |s| - 1;
      SizeOfDistinct(s[..n]);
      assert (set k | k in s) == (set k | k in s[..n]) + {s[n]};
      assert s[n] !in s[..n];
    }
  }

  lemma {:induction false} KeysOfKindDistinct(keys: seq<SeriesKey>, kind: string)
    requires Distinct(keys)
    ensures Distinct(KeysOfKind(keys, kind))
  {
    if keys != [] {
      KeysOfKindDistinct(keys[..|keys| - 1], kind);
      KeysOfKindIn(keys[..|keys| - 1], kind);
      assert keys[|keys| - 1] !in keys[..|keys| - 1];
    }
  }

  // ----- one kind

  ghost predicate Agree(entries: Entries, other: Entries, kind: string) {
    forall k: SeriesKey :: k.kind == kind ==>
      (k in entries <==> k in other) && (k in entries ==> entries[k] == other[k])
  }

  lemma {:induction false} SortAgrees(entries: Entries, other: Entries, kind: string, ks: seq<SeriesKey>)
    requires Agree(entries, other, kind) && forall k :: k in ks ==> k.kind == kind
    ensures Ranked(entries, ks) == Ranked(other, ks)
  {
    if ks != [] {
      SortAgrees(entries, other, kind, ks[1..]);
      SortKeeps(ks[1..], (a: SeriesKey, b: SeriesKey) => Beats(entries, a, b));
      SameElements(Ranked(entries, ks[1..]), ks[1..]);
      InsertAgrees(entries, other, kind, ks[0], Ranked(entries, ks[1..]));
    }
  }

  lemma {:induction false} InsertAgrees(entries: Entries, other: Entries, kind: string, x: SeriesKey, s: seq<SeriesKey>)
    requires Agree(entries, other, kind) && x.kind == kind && forall k :: k in s ==> k.kind == kind
    ensures Insert(x, s, (a: SeriesKey, b: SeriesKey) => Beats(entries, a, b)) ==
            Insert(x, s, (a: SeriesKey, b: SeriesKey) => Beats(other, a, b))
  {
    if s != [] {
      InsertAgrees(entries, other, kind, x, s[1..]);
      assert Beats(entries, s[0], x) == Beats(other, s[0], x);
    }
  }

  lemma {:induction false} AbsorbAgrees(entries: Entries, other: Entries, others: Entry, rest: seq<SeriesKey>,
                                        kind: string)
    requires Agree(entries, other, kind) && forall k :: k in rest ==> k in entries && k.kind == kind
    ensures Absorb(entries, others, rest) == Absorb(other, others, rest)
  {
    if rest != [] { AbsorbAgrees(entries, other, others, rest[..|rest| - 1], kind); }
  }

  lemma FoldAgrees(entries: Entries, other: Entries, kind: string, ranked: seq<SeriesKey>, limit: nat, arity: nat)
    requires Agree(entries, other, kind) && forall k :: k in ranked ==> k in entries && k.kind == kind
    ensures var (kept, after), (kept', after') := FoldKind(entries, kind, ranked, limit, arity),
                                                  FoldKind(other, kind, ranked, limit, arity);
            kept == kept' && Agree(after, after', kind)
  {
    if |ranked| > limit {
      AbsorbAgrees(entries, other, StartOthers(entries, kind, arity), ranked[limit..], kind);
    }
  }

  /** Folding all kinds is folding each kind by itself. */
  function FoldAlone(entries: Entries, keys: seq<SeriesKey>, kind: string, limit: nat, arity: nat):
    (r: (seq<SeriesKey>, Entries))
    requires forall k :: k in keys ==> k in entries
  {
    RankedIn(entries, keys, kind);
    FoldKind(entries, kind, Ranked(entries, KeysOfKind(keys, kind)), limit, arity)
  }

  lemma {:induction false} FoldKindsPerKind(entries: Entries, keys: seq<SeriesKey>, kinds: seq<string>,
                                            limit: nat, arity: nat, kind: string)
    requires Distinct(kinds) && forall k :: k in keys ==> k in entries
    ensures var (newKeys, left) := FoldKinds(entries, keys, kinds, limit, arity);
            if kind in kinds then
              var (kept, after) := FoldAlone(entries, keys, kind, limit, arity);
              KeysOfKind(newKeys, kind) == kept && Agree(left, after, kind)
            else KeysOfKind(newKeys, kind) == [] && Agree(left, entries, kind)
  {
    if kinds != [] {
      var n := |kinds| - 1;
      FoldKindsPerKind(entries, keys, kinds[..n], limit, arity, kind);
      FoldNextKind(entries, keys, kinds, n, limit, arity);
      assert kinds[..n + 1] == kinds;
      assert kinds[n] !in kinds[..n];
      hide FoldKinds, FoldKind, Ranked, KeysOfKind, Agree;
      var (newKeys, left) := FoldKinds(entries, keys, kinds[..n], limit, arity);
      var (kept, after) := FoldKind(left, kinds[n], Ranked(left, KeysOfKind(keys, kinds[n])), limit, arity);
      KeysOfKindAppend(newKeys, kept, kind);
      if kind == kinds[n] {
        AllOfKind(kept, kind);
        SameFold(left, entries, keys, kind, limit, arity);
        assert KeysOfKind(newKeys, kind) == [];
      } else {
        NoneOfKind(kept, kind);
        OtherKindsUntouched(left, kinds[n], Ranked(left, KeysOfKind(keys, kinds[n])), limit, arity, kind);
        AgreeTransitive(after, left,
                        if kind in kinds then FoldAlone(entries, keys, kind, limit, arity).1 else entries, kind);
      }
    }
  }

  lemma AgreeTransitive(a: Entries, b: Entries, c: Entries, kind: string)
    requires Agree(a, b, kind) && Agree(b, c, kind)
    ensures Agree(a, c, kind)
  {
  }

  lemma OtherKindsUntouched(entries: Entries, kind: string, ranked: seq<SeriesKey>, limit: nat, arity: nat,
                            other: string)
    requires other != kind && forall k :: k in ranked ==> k in entries && k.kind == kind
    ensures Agree(FoldKind(entries, kind, ranked, limit, arity).1, entries, other)
  {
    hide FoldKind;
  }

  lemma SameFold(left: Entries, entries: Entries, keys: seq<SeriesKey>, kind: string, limit: nat, arity: nat)
    requires Agree(left, entries, kind) && forall k :: k in keys ==> k in entries
    ensures var ranked := Ranked(left, KeysOfKind(keys, kind));
            && (forall k :: k in ranked ==> k in left && k.kind == kind)
            && var (kept, after) := FoldKind(left, kind, ranked, limit, arity);
               var (kept', after') := FoldAlone(entries, keys, kind, limit, arity);
               kept == kept' && Agree(after, after', kind)
  {
    hide FoldKind, Ranked;
    var ks := KeysOfKind(keys, kind);
    RankedIn(left, keys, kind);
    KeysOfKindIn(keys, kind);
    SortAgrees(left, entries, kind, ks);
    FoldAgrees(left, entries, kind, Ranked(left, ks), limit, arity);
  }

  lemma {:induction false} KeysOfKindAppend(a: seq<SeriesKey>, b: seq<SeriesKey>, kind: string)
    ensures KeysOfKind(a + b, kind) == KeysOfKind(a, kind) + KeysOfKind(b, kind)
  {
    if b == [] {
      assert a + b == a;
    } else {
      assert (a + b)[..|a + b| - 1] == a + b[..|b| - 1];
      KeysOfKindAppend(a, b[..|b| - 1], kind);
    }
  }

  lemma {:induction false} AllOfKind(ks: seq<SeriesKey>, kind: string)
    requires forall k :: k in ks ==> k.kind == kind
    ensures KeysOfKind(ks, kind) == ks
  {
    if ks != [] {
      var n := |ks| - 1;
      AllOfKind(ks[..n], kind);
      assert ks[n].kind == kind && ks == ks[..n] + [ks[n]];
    }
  }

  lemma {:induction false} NoneOfKind(ks: seq<SeriesKey>, kind: string)
    requires forall k :: k in ks ==> k.kind != kind
    ensures KeysOfKind(ks, kind) == []
  {
    if ks != [] { NoneOfKind(ks[..|ks| - 1], kind); }
  }

  /** The fold of one kind conserves each instant, keeps at most limit + 1 keys, and leaves every
      kept key with an entry. */
  lemma FoldOneConserves(entries: Entries, kind: string, ranked: seq<SeriesKey>, limit: nat, arity: nat, t: int)
    requires Distinct(ranked) && forall k :: k in ranked ==> k in entries && k.kind == kind
    requires OthersKey(kind, arity) !in entries && KindsMatch(entries)
    ensures var (kept, after) := FoldKind(entries, kind, ranked, limit, arity);
            && |kept| <= limit + 1
            && (forall k :: k in kept ==> k in after && after[k].kind == kind)
            && KindAt(after, kept, kind, t) == KindAt(entries, ranked, kind, t)
            && (|ranked| > limit ==> OthersKey(kind, arity) in kept && OneEach(after[OthersKey(kind, arity)].points))
  {
    hide OthersKey, At, KindAt, Absorb;
    if |ranked| > limit {
      var top, rest, key := ranked[..limit], ranked[limit..], OthersKey(kind, arity);
      assert ranked == top + rest && key !in ranked;
      FoldShape(entries, kind, ranked, limit, arity);
      hide FoldKind;
      var (kept, after) := FoldKind(entries, kind, ranked, limit, arity);
      AtNone(t);
      AbsorbAt(entries, StartOthers(entries, kind, arity), rest, kind, t);
      KindAtAppend(entries, top, rest, kind, t);
      KindAtAppend(after, top, [key], kind, t);
      KindAtOne(after, key, kind, t);
      KindAtAgrees(entries, after, top, kind, t);
    }
  }

  /** A fold that drops something, with the `$others` key not among the dropped ones. */
  lemma FoldShape(entries: Entries, kind: string, ranked: seq<SeriesKey>, limit: nat, arity: nat)
    requires Distinct(ranked) && forall k :: k in ranked ==> k in entries && k.kind == kind
    requires |ranked| > limit && OthersKey(kind, arity) !in ranked[limit..]
    ensures var (kept, after) := FoldKind(entries, kind, ranked, limit, arity);
            var key := OthersKey(kind, arity);
            && kept == ranked[..limit] + [key] && key in after
            && after[key] == Absorb(entries, StartOthers(entries, kind, arity), ranked[limit..])
            && forall k :: k in ranked[..limit] && k != key ==> k in after && after[k] == entries[k]
  {
    hide OthersKey, Absorb;
    assert forall k :: k in ranked[..limit] ==> k !in ranked[limit..];
  }

  /** When a literal `$others` tuple ranks among the kept keys, the fold lands in that series and
      the series is returned twice: the kind is over-counted by exactly its new value. */
  lemma NamedOthersCountTwice(entries: Entries, kind: string, ranked: seq<SeriesKey>, limit: nat, arity: nat, t: int)
    requires Distinct(ranked) && forall k :: k in ranked ==> k in entries && k.kind == kind
    requires |ranked| > limit && OthersKey(kind, arity) in ranked[..limit]
    ensures var (kept, after) := FoldKind(entries, kind, ranked, limit, arity);
            && OthersKey(kind, arity) in after
            && KindAt(after, kept, kind, t) ==
               KindAt(entries, ranked, kind, t) + At(after[OthersKey(kind, arity)].points, t)
  {
    hide OthersKey, At, KindAt, FoldKind, Absorb;
    var top, rest, key := ranked[..limit], ranked[limit..], OthersKey(kind, arity);
    assert ranked == top + rest && key !in rest;
    FoldShape(entries, kind, ranked, limit, arity);
    var (kept, after) := FoldKind(entries, kind, ranked, limit, arity);
    AbsorbAt(entries, entries[key], rest, kind, t);
    KindAtAppend(entries, top, rest, kind, t);
    KindAtAppend(after, top, [key], kind, t);
    KindAtOne(after, key, kind, t);
    var a, b := SplitAround(top, key);
    OneEntryGrows(entries, after, a, key, b, kind, t);
  }

  // ----- the whole grouping

  /** No row's tuple spells the `$others` tuple. */
  ghost predicate NoLiteralOthers(rows: seq<TrendRow>, arity: nat) {
    forall kind :: OthersKey(kind, arity) !in EntriesOf(rows)
  }

  function NumSeries(series: seq<Series>, kind: string): nat {
    if series == [] then 0 else (if series[0].kind == kind then 1 else 0) + NumSeries(series[1..], kind)
  }

  lemma {:induction false} NumSeriesIsKeys(entries: Entries, keys: seq<SeriesKey>, kind: string)
    requires KindsMatch(entries) && forall k :: k in keys ==> k in entries
    ensures NumSeries(EmitSeries(entries, keys), kind) == |KeysOfKind(keys, kind)|
  {
    if keys != [] {
      hide SortPoints;
      assert EmitSeries(entries, keys)[1..] == EmitSeries(entries, keys[1..]);
      NumSeriesIsKeys(entries, keys[1..], kind);
      assert keys == [keys[0]] + keys[1..];
      KeysOfKindAppend([keys[0]], keys[1..], kind);
      assert KeysOfKind([keys[0]], kind) == if keys[0].kind == kind then [keys[0]] else [];
    }
  }

  /** Folding a kind by itself, from the collected rows. */
  lemma FoldAloneConserves(entries: Entries, keys: seq<SeriesKey>, limit: nat, arity: nat, kind: string, t: int)
    requires Distinct(keys) && KindsMatch(entries) && (forall k :: k in keys ==> k in entries)
    requires OthersKey(kind, arity) !in entries
    ensures var (kept, after) := FoldAlone(entries, keys, kind, limit, arity);
            && |kept| <= limit + 1
            && (forall k :: k in kept ==> k in after && after[k].kind == kind)
            && KindAt(after, kept, kind, t) == KindAt(entries, keys, kind, t)
            && (|KeysOfKind(keys, kind)| > limit ==>
                  OthersKey(kind, arity) in kept && OneEach(after[OthersKey(kind, arity)].points))
  {
    var ks := KeysOfKind(keys, kind);
    var less := (a: SeriesKey, b: SeriesKey) => Beats(entries, a, b);
    var ranked := Ranked(entries, ks);
    RankedIn(entries, keys, kind);
    KeysOfKindDistinct(keys, kind);
    SortKeeps(ks, less);
    DistinctByMultiset(ranked, ks);
    FoldOneConserves(entries, kind, ranked, limit, arity, t);
    hide KeysOfKind, KindAt;
    KindAtSort(entries, ks, less, kind, t);
    KindAtFilter(entries, keys, kind, t);
  }

  lemma FoldedKindFacts(rows: seq<TrendRow>, arity: nat, limit: nat, kind: string, t: int)
    requires OthersKey(kind, arity) !in EntriesOf(rows)
    requires forall k :: k in Keys(rows) ==> k in EntriesOf(rows)
    ensures var entries, keys := EntriesOf(rows), Keys(rows);
            var (newKeys, left) := TopN(entries, keys, limit, arity);
            && |KeysOfKind(newKeys, kind)| <= limit + 1
            && (forall k :: k in newKeys && k.kind == kind ==> k in left && left[k].kind == kind)
            && KindAt(left, newKeys, kind, t) == RowsAt(rows, kind, t)
            && (|KeysOfKind(keys, kind)| > limit ==>
                  OthersKey(kind, arity) in left && OneEach(left[OthersKey(kind, arity)].points))
  {
    var entries, keys := EntriesOf(rows), Keys(rows);
    KeysMatch(rows);
    CollectedAt(rows, kind, t);
    assert OthersKey(kind, arity).kind == kind && OthersKey(kind, arity) !in entries;
    hide EntriesOf, Keys, FoldAlone, FoldKinds, KeysOfKind, KindAt, OthersKey;
    var (newKeys, left) := TopN(entries, keys, limit, arity);
    FoldKindsPerKind(entries, keys, SortedKinds(keys), limit, arity, kind);
    KindAtFilter(left, newKeys, kind, t);
    KeysOfKindIn(newKeys, kind);
    if kind in SortedKinds(keys) {
      FoldAloneConserves(entries, keys, limit, arity, kind, t);
      var (kept, after) := FoldAlone(entries, keys, kind, limit, arity);
      KindAtAgrees(left, after, kept, kind, t);
    } else {
      NoneOfKind(keys, kind);
      KindAtOther(entries, keys, kind, t);
      KindAtOther(left, [], kind, t);
    }
  }

  /** Grouping conserves: for every kind and instant the series add up to the rows, and a limited
      grouping returns at most limit + 1 series of a kind. */
  lemma GroupingConserves(rows: seq<TrendRow>, arity: nat, limit: int, kind: string, t: int)
    requires UniformArity(rows, arity) && NoLiteralOthers(rows, arity)
    ensures var out := Group(rows, arity, limit);
            && out.Grouped?
            && SeriesAt(out.series, kind, t) == RowsAt(rows, kind, t)
            && (limit > 0 && arity > 0 ==> NumSeries(out.series, kind) <= limit + 1)
  {
    var entries, keys := EntriesOf(rows), Keys(rows);
    KeysMatch(rows);
    CollectedAt(rows, kind, t);
    if limit > 0 && arity > 0 {
      var (newKeys, left) := TopN(entries, keys, limit, arity);
      forall k | k in newKeys ensures k in left { FoldedKindFacts(rows, arity, limit, k.kind, t); }
      forall k | k in left ensures left[k].kind == k.kind { LeftKindsMatch(rows, arity, limit, k); }
      FoldedKindFacts(rows, arity, limit, kind, t);
      EmittedAt(left, newKeys, kind, t);
      NumSeriesIsKeys(left, newKeys, kind);
    } else {
      EmittedAt(entries, keys, kind, t);
    }
  }

  lemma LeftKindsMatch(rows: seq<TrendRow>, arity: nat, limit: nat, k: SeriesKey)
    requires forall k :: k in Keys(rows) ==> k in EntriesOf(rows)
    requires k in TopN(EntriesOf(rows), Keys(rows), limit, arity).1
    ensures TopN(EntriesOf(rows), Keys(rows), limit, arity).1[k].kind == k.kind
  {
    var entries, keys := EntriesOf(rows), Keys(rows);
    CollectedAt(rows, k.kind, 0);
    hide EntriesOf, Keys, FoldKinds, FoldKind, Ranked, KeysOfKind;
    FoldKindsPerKind(entries, keys, SortedKinds(keys), limit, arity, k.kind);
    if k.kind in SortedKinds(keys) {
      RankedIn(entries, keys, k.kind);
      FoldKeepsKinds(entries, k.kind, Ranked(entries, KeysOfKind(keys, k.kind)), limit, arity, k);
    }
  }

  lemma FoldKeepsKinds(entries: Entries, kind: string, ranked: seq<SeriesKey>, limit: nat, arity: nat, k: SeriesKey)
    requires KindsMatch(entries) && forall k :: k in ranked ==> k in entries && k.kind == kind
    requires k in FoldKind(entries, kind, ranked, limit, arity).1
    ensures FoldKind(entries, kind, ranked, limit, arity).1[k].kind == k.kind
  {
    hide BreakdownKey, Absorb;
    if |ranked| > limit { AbsorbAt(entries, StartOthers(entries, kind, arity), ranked[limit..], kind, 0); }
  }

  // ----- which keys survive

  function Total(rows: seq<TrendRow>, key: SeriesKey): real {
    if rows == [] then 0.0
    else
      var r := rows[|rows| - 1];
      Total(rows[..|rows| - 1], key) + if KeyOf(r) == key then r.value else 0.0
  }

  lemma {:induction false} EntryTotal(rows: seq<TrendRow>, key: SeriesKey)
    ensures if key in EntriesOf(rows) then EntriesOf(rows)[key].total == Total(rows, key) else Total(rows, key) == 0.0
  {
    hide BreakdownKey;
    if rows != [] { EntryTotal(rows[..|rows| - 1], key); }
  }

  lemma KeptByPosition(entries: Entries, kind: string, ranked: seq<SeriesKey>, limit: nat, arity: nat, i: nat)
    requires Distinct(ranked) && i < |ranked| && forall k :: k in ranked ==> k in entries && k.kind == kind
    requires OthersKey(kind, arity) !in ranked
    ensures var (kept, after) := FoldKind(entries, kind, ranked, limit, arity);
            && (ranked[i] in kept <==> i < limit)
            && (i < limit ==> ranked[i] in after && after[ranked[i]] == entries[ranked[i]])
            && forall k :: k in kept && k != OthersKey(kind, arity) ==>
              exists j :: 0 <= j < |ranked| && ranked[j] == k && (i >= limit ==> j < limit)
  {
    var (kept, after) := FoldKind(entries, kind, ranked, limit, arity);
    if |ranked| > limit {
      assert ranked[i] in ranked[limit..] <==> i >= limit;
      forall k | k in kept && k != OthersKey(kind, arity) ensures exists j :: 0 <= j < limit && ranked[j] == k {
        assert k in ranked[..limit];
      }
    }
  }

  /** Keys of the kind that rank ahead of `key`. */
  ghost function Ahead(rows: seq<TrendRow>, key: SeriesKey): set<SeriesKey> {
    set k | k in EntriesOf(rows) && k.kind == key.kind && Beats(EntriesOf(rows), k, key)
  }

  /** A key is named in the result exactly when fewer than `limit` keys of its kind rank ahead of
      it; every named key's total is at least every folded one's. */
  lemma TopKeysSurvive(rows: seq<TrendRow>, arity: nat, limit: nat, key: SeriesKey)
    requires NoLiteralOthers(rows, arity) && key in EntriesOf(rows)
    requires forall k :: k in Keys(rows) ==> k in EntriesOf(rows)
    ensures var (newKeys, left) := TopN(EntriesOf(rows), Keys(rows), limit, arity);
            && (key in newKeys <==> |Ahead(rows, key)| < limit)
            && (key in newKeys ==> key in left && left[key] == EntriesOf(rows)[key])
            && (key !in newKeys ==>
                  forall k :: k in newKeys && k.kind == key.kind && k != OthersKey(key.kind, arity) ==>
                    k in EntriesOf(rows) && Total(rows, k) >= Total(rows, key))
  {
    var entries, keys, kind := EntriesOf(rows), Keys(rows), key.kind;
    KeysMatch(rows);
    hide EntriesOf, Keys, FoldKinds, FoldKind, Ranked, Beats, OthersKey, KeysOfKind, Total;
    FoldKindsPerKind(entries, keys, SortedKinds(keys), limit, arity, kind);
    var ks := KeysOfKind(keys, kind);
    KeysOfKindDistinct(keys, kind);
    KeysOfKindIn(keys, kind);
    RankedIn(entries, keys, kind);
    RankedStrictly(entries, ks, kind);
    var ranked := Ranked(entries, ks);
    var i :| 0 <= i < |ranked| && ranked[i] == key;
    RankIsPosition(entries, ranked, i);
    assert Ahead(rows, key) == set k | k in ranked && Beats(entries, k, ranked[i]);
    BeatsIsWeak(entries);
    KeptByPosition(entries, kind, ranked, limit, arity, i);
    var (newKeys, left) := TopN(entries, keys, limit, arity);
    KeysOfKindIn(newKeys, kind);
    if i >= limit {
      forall k | k in newKeys && k.kind == kind && k != OthersKey(kind, arity)
        ensures k in entries && Total(rows, k) >= Total(rows, key)
      {
        HigherTotal(rows, ranked, i, limit, k);
      }
    }
  }

  /** A key placed above the limit has at least the total of one placed below. */
  lemma HigherTotal(rows: seq<TrendRow>, ranked: seq<SeriesKey>, i: nat, limit: nat, k: SeriesKey)
    requires StrictlyRanked(EntriesOf(rows), ranked) && limit <= i < |ranked|
    requires exists j :: 0 <= j < |ranked| && ranked[j] == k && j < limit
    ensures k in EntriesOf(rows) && Total(rows, k) >= Total(rows, ranked[i])
  {
    hide EntriesOf, Total;
    var j :| 0 <= j < |ranked| && ranked[j] == k && j < limit;
    assert Beats(EntriesOf(rows), ranked[j], ranked[i]);
    LargerTotal(rows, k, ranked[i]);
  }

  lemma LargerTotal(rows: seq<TrendRow>, a: SeriesKey, b: SeriesKey)
    requires Beats(EntriesOf(rows), a, b)
    ensures Total(rows, a) >= Total(rows, b)
  {
    EntryTotal(rows, a);
    EntryTotal(rows, b);
  }

  // ----- when the condition is not met

  /** The grouping panics exactly when some kind folds the very key it folds into. */
  lemma PanicsExactly(rows: seq<TrendRow>, arity: nat, limit: nat)
    requires UniformArity(rows, arity) && limit > 0 && arity > 0
    ensures (forall k :: k in Keys(rows) ==> k in EntriesOf(rows))
    ensures Group(rows, arity, limit).NilEntry? <==>
            exists kind :: OthersKey(kind, arity) in EntriesOf(rows) && |Ahead(rows, OthersKey(kind, arity))| >= limit
  {
    var entries, keys := EntriesOf(rows), Keys(rows);
    KeysMatch(rows);
    hide Ahead, EntriesOf, Keys, OthersKey, Emit, TopN, Dangling;
    var (newKeys, left) := TopN(entries, keys, limit, arity);
    assert Group(rows, arity, limit) == Emit(left, newKeys);
    EmitFails(left, newKeys);
    if k :| k in newKeys && k !in left {
      DanglingKind(rows, arity, limit, k.kind);
      assert OthersKey(k.kind, arity) in entries && |Ahead(rows, OthersKey(k.kind, arity))| >= limit;
    }
    if kind :| OthersKey(kind, arity) in entries && |Ahead(rows, OthersKey(kind, arity))| >= limit {
      DanglingKind(rows, arity, limit, kind);
      DanglingHasKey(newKeys, left, kind);
      assert Emit(left, newKeys).NilEntry?;
    }
  }

  /** Some kept key of the kind has lost its entry. */
  ghost predicate Dangling(keys: seq<SeriesKey>, entries: Entries, kind: string) {
    exists k :: k in keys && k.kind == kind && k !in entries
  }

  lemma DanglingHasKey(keys: seq<SeriesKey>, entries: Entries, kind: string)
    requires Dangling(keys, entries, kind)
    ensures exists k :: k in keys && k !in entries
  {
  }

  lemma EmitFails(entries: Entries, keys: seq<SeriesKey>)
    ensures Emit(entries, keys).NilEntry? <==> exists k :: k in keys && k !in entries
    ensures forall k :: k in keys && k !in entries ==> Dangling(keys, entries, k.kind)
  {
  }

  lemma DanglingKind(rows: seq<TrendRow>, arity: nat, limit: nat, kind: string)
    requires forall k :: k in Keys(rows) ==> k in EntriesOf(rows)
    ensures var (newKeys, left) := TopN(EntriesOf(rows), Keys(rows), limit, arity);
            Dangling(newKeys, left, kind) <==>
            OthersKey(kind, arity) in EntriesOf(rows) && |Ahead(rows, OthersKey(kind, arity))| >= limit
  {
    hide TopN, Ahead, EntriesOf, Keys, OthersKey;
    DanglingKey(rows, arity, limit, kind);
  }

  lemma DanglingKey(rows: seq<TrendRow>, arity: nat, limit: nat, kind: string)
    requires forall k :: k in Keys(rows) ==> k in EntriesOf(rows)
    ensures var (newKeys, left) := TopN(EntriesOf(rows), Keys(rows), limit, arity);
            (exists k :: k in newKeys && k.kind == kind && k !in left) <==>
            OthersKey(kind, arity) in EntriesOf(rows) && |Ahead(rows, OthersKey(kind, arity))| >= limit
  {
    var entries, keys, key := EntriesOf(rows), Keys(rows), OthersKey(kind, arity);
    assert key.kind == kind;
    KeysMatch(rows);
    hide EntriesOf, Keys, FoldKinds, FoldKind, Ranked, OthersKey, Beats, KeysOfKind, TopN;
    var ks := KeysOfKind(keys, kind);
    KeysOfKindDistinct(keys, kind);
    KeysOfKindIn(keys, kind);
    RankedIn(entries, keys, kind);
    RankedStrictly(entries, ks, kind);
    BeatsIsWeak(entries);
    var ranked := Ranked(entries, ks);
    assert Distinct(ranked);
    DanglingInFold(entries, kind, ranked, limit, arity);
    DanglingPerKind(entries, keys, limit, arity, kind);
    RankOf(rows, ranked, kind, key, limit);
  }

  lemma DanglingPerKind(entries: Entries, keys: seq<SeriesKey>, limit: nat, arity: nat, kind: string)
    requires forall k :: k in keys ==> k in entries
    ensures var (newKeys, left) := TopN(entries, keys, limit, arity);
            var (kept, after) := FoldAlone(entries, keys, kind, limit, arity);
            (exists k :: k in newKeys && k.kind == kind && k !in left) <==> exists k :: k in kept && k !in after
  {
    hide FoldKinds, FoldKind, Ranked, KeysOfKind;
    FoldKindsPerKind(entries, keys, SortedKinds(keys), limit, arity, kind);
    var (newKeys, left) := TopN(entries, keys, limit, arity);
    KeysOfKindIn(newKeys, kind);
    RankedIn(entries, keys, kind);
    KeysOfKindIn(keys, kind);
    if kind !in SortedKinds(keys) {
      NoneOfKind(keys, kind);
      EmptyFold(entries, keys, kind, limit, arity);
    }
  }

  lemma EmptyFold(entries: Entries, keys: seq<SeriesKey>, kind: string, limit: nat, arity: nat)
    requires KeysOfKind(keys, kind) == [] && forall k :: k in keys ==> k in entries
    ensures FoldAlone(entries, keys, kind, limit, arity).0 == []
  {
  }

  lemma RankOf(rows: seq<TrendRow>, ranked: seq<SeriesKey>, kind: string, key: SeriesKey, limit: nat)
    requires StrictlyRanked(EntriesOf(rows), ranked) && key.kind == kind
    requires forall k :: k in ranked <==> k in EntriesOf(rows) && k.kind == kind
    ensures (exists i :: limit <= i < |ranked| && ranked[i] == key) <==>
            key in EntriesOf(rows) && |Ahead(rows, key)| >= limit
  {
    var entries := EntriesOf(rows);
    hide EntriesOf, Beats;
    if key in entries {
      assert key in ranked;
      var i :| 0 <= i < |ranked| && ranked[i] == key;
      RankIsPosition(entries, ranked, i);
      assert Ahead(rows, key) == set k | k in ranked && Beats(entries, k, ranked[i]);
      BeatsIsWeak(entries);
      assert forall j :: 0 <= j < |ranked| && ranked[j] == key ==> j == i;
    }
  }

  lemma DanglingInFold(entries: Entries, kind: string, ranked: seq<SeriesKey>, limit: nat, arity: nat)
    requires Distinct(ranked) && forall k :: k in ranked ==> k in entries && k.kind == kind
    ensures var (kept, after) := FoldKind(entries, kind, ranked, limit, arity);
            (exists k :: k in kept && k !in after) <==>
            exists i :: limit <= i < |ranked| && ranked[i] == OthersKey(kind, arity)
  {
    var key := OthersKey(kind, arity);
    var (kept, after) := FoldKind(entries, kind, ranked, limit, arity);
    if |ranked| > limit {
      var rest := ranked[limit..];
      assert key in rest <==> exists i :: limit <= i < |ranked| && ranked[i] == key;
      assert forall k :: k in ranked[..limit] ==> k !in rest;
      assert key in kept;
    }
  }
}
