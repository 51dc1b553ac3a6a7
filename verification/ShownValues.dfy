/** What the series of a grouping show: the value of a breakdown at an instant, whether it has a series at all, and
    what of the rows these depend on. */
module ShownValues {
  import opened Basics
  import opened Breakdowns
  import opened RollupStore
  import TopBreakdowns
  import opened TrendSeries
  import opened TrendSeriesLaws
  import opened RollupTrends
  import opened RollupRefinement
  import Exact = TrendSeriesExact

  // ----- values shown by a grouping

  /** The breakdown tuple of a row: empty without a breakdown. */
  function Tuple(arity: nat, b: string): seq<string> { if arity == 0 then [] else [b] }

  /** What the kind's series with the tuple show at one instant; nothing shown is zero. */
  function ValueOf(series: seq<Series>, kind: string, tuple: seq<string>, t: int): real {
    if series == [] then 0.0
    else
      var s := series[0];
      (if s.kind == kind && s.breakdowns == tuple then At(s.points, t) else 0.0) + ValueOf(series[1..], kind, tuple, t)
  }

  function KeyAt(rows: seq<TrendRow>, key: SeriesKey, t: int): real {
    if rows == [] then 0.0
    else
      var r := rows[|rows| - 1];
      KeyAt(rows[..|rows| - 1], key, t) + if KeyOf(r) == key && r.time == t then r.value else 0.0
  }

  lemma {:induction false} EntryAt(rows: seq<TrendRow>, key: SeriesKey, t: int)
    ensures KeyAt(rows, key, t) == if key in EntriesOf(rows) then At(EntriesOf(rows)[key].points, t) else 0.0
  {
    hide BreakdownKey, At;
    if rows != [] {
      EntryAt(rows[..|rows| - 1], key, t);
      AddedPoints(EntriesOf(rows[..|rows| - 1]), rows[|rows| - 1], t);
    }
  }

  ghost predicate Tupled(k: SeriesKey, e: Entry, arity: nat) {
    e.kind == k.kind && e.breakdowns == Tuple(arity, k.breakdown) && (arity == 0 ==> k.breakdown == "")
  }

  lemma {:induction false} CollectedTuples(rows: seq<TrendRow>, arity: nat)
    requires UniformArity(rows, arity) && arity <= 1
    ensures forall k :: k in EntriesOf(rows) ==> Tupled(k, EntriesOf(rows)[k], arity)
  {
    if rows != [] {
      CollectedTuples(rows[..|rows| - 1], arity);
      var r := rows[|rows| - 1];
      assert r.breakdowns == Tuple(arity, BreakdownKey(r.breakdowns));
    }
  }

  lemma PeelKind(keys: seq<SeriesKey>, kind: string)
    requires keys != [] && Distinct(KeysOfKind(keys, kind))
    ensures var rest := KeysOfKind(keys[1..], kind);
      && KeysOfKind(keys, kind) == (if keys[0].kind == kind then [keys[0]] else []) + rest
      && Distinct(rest) && (keys[0].kind == kind ==> keys[0] !in rest)
  {
    var k, rest := keys[0], KeysOfKind(keys[1..], kind);
    var all := KeysOfKind(keys, kind);
    assert keys == [k] + keys[1..];
    KeysOfKindAppend([k], keys[1..], kind);
    assert KeysOfKind([k], kind) == if k.kind == kind then [k] else [];
    assert all == (if k.kind == kind then [k] else []) + rest;
    assert rest == all[|all| - |rest|..];
  }

  lemma {:induction false} EmittedValue(entries: Entries, keys: seq<SeriesKey>, arity: nat, kind: string, b: string,
                                        t: int)
    requires forall k :: k in keys ==>
      k in entries && entries[k].kind == k.kind && (k.kind == kind ==> Tupled(k, entries[k], arity))
    requires Distinct(KeysOfKind(keys, kind))
    requires arity == 0 ==> b == ""
    ensures ValueOf(EmitSeries(entries, keys), kind, Tuple(arity, b), t) ==
      if SeriesKey(kind, b) in KeysOfKind(keys, kind) && SeriesKey(kind, b) in entries
      then At(entries[SeriesKey(kind, b)].points, t) else 0.0
  {
    hide SortPoints, At;
    if keys != [] {
      hide KeysOfKind;
      var k, rest := keys[0], keys[1..];
      assert EmitSeries(entries, keys)[1..] == EmitSeries(entries, rest);
      PeelKind(keys, kind);
      EmittedValue(entries, rest, arity, kind, b, t);
      SortedPointsAt(entries[k].points, t);
    }
  }

  // ----- which series there are

  ghost predicate Shown(series: seq<Series>, kind: string, tuple: seq<string>) {
    exists s :: s in series && s.kind == kind && s.breakdowns == tuple
  }

  lemma EmittedShown(entries: Entries, keys: seq<SeriesKey>, arity: nat, kind: string, b: string)
    requires forall k :: k in keys ==>
      k in entries && entries[k].kind == k.kind && (k.kind == kind ==> Tupled(k, entries[k], arity))
    requires arity == 0 ==> b == ""
    ensures Shown(EmitSeries(entries, keys), kind, Tuple(arity, b)) <==> SeriesKey(kind, b) in KeysOfKind(keys, kind)
  {
    hide SortPoints;
    KeysOfKindIn(keys, kind);
    var series := EmitSeries(entries, keys);
    if SeriesKey(kind, b) in keys {
      var i :| 0 <= i < |keys| && keys[i] == SeriesKey(kind, b);
      assert series[i] in series;
    }
    if s :| s in series && s.kind == kind && s.breakdowns == Tuple(arity, b) {
      var i :| 0 <= i < |series| && series[i] == s;
      assert keys[i].kind == kind && Tuple(arity, keys[i].breakdown) == Tuple(arity, b);
    }
  }

  /** A grouping that folds nothing shows the rows. */
  lemma UnfoldedValue(rows: seq<TrendRow>, arity: nat, limit: int, kind: string, b: string, t: int)
    requires UniformArity(rows, arity) && arity <= 1 && (limit <= 0 || arity == 0)
    requires arity == 0 ==> b == ""
    ensures var out := Group(rows, arity, limit);
      && out.Grouped?
      && ValueOf(out.series, kind, Tuple(arity, b), t) == KeyAt(rows, SeriesKey(kind, b), t)
      && (Shown(out.series, kind, Tuple(arity, b)) <==> SeriesKey(kind, b) in EntriesOf(rows))
  {
    KeysMatch(rows);
    hide EntriesOf, Keys, At, KeysOfKind, ValueOf, EmitSeries, Shown;
    KeysOfKindIn(Keys(rows), kind);
    KeysOfKindDistinct(Keys(rows), kind);
    CollectedTuples(rows, arity);
    EmittedValue(EntriesOf(rows), Keys(rows), arity, kind, b, t);
    EmittedShown(EntriesOf(rows), Keys(rows), arity, kind, b);
    EntryAt(rows, SeriesKey(kind, b), t);
  }

  // ----- a grouping that folds

  ghost function RankedKeys(rows: seq<TrendRow>, kind: string): seq<SeriesKey> {
    Ranked(EntriesOf(rows), KeysOfKind(Keys(rows), kind))
  }

  ghost function FoldedKeys(rows: seq<TrendRow>, n: nat, kind: string): seq<SeriesKey> {
    var ranked := RankedKeys(rows, kind);
    if |ranked| <= n then [] else ranked[n..]
  }

  lemma KindIsKept(entries: Entries, keys: seq<SeriesKey>, kind: string, n: nat)
    requires Distinct(keys) && (forall k :: k in keys ==> k in entries) && OthersKey(kind, 1) !in entries
    ensures var (newKeys, left) := TopN(entries, keys, n, 1);
      KeepsTop(entries, Ranked(entries, KeysOfKind(keys, kind)), kind, n, KeysOfKind(newKeys, kind), left)
  {
    hide FoldKinds, FoldKind, Ranked, KeysOfKind, Agree, OthersKey, KeepsTop;
    var ranked := Ranked(entries, KeysOfKind(keys, kind));
    RankedOnce(entries, keys, kind);
    FoldKindsPerKind(entries, keys, SortedKinds(keys), n, 1, kind);
    var (newKeys, left) := TopN(entries, keys, n, 1);
    if kind in SortedKinds(keys) {
      FoldKeepsTop(entries, kind, ranked, n);
      var (kept, after) := FoldAlone(entries, keys, kind, n, 1);
      KeepsTopAgrees(entries, ranked, kind, n, kept, after, left);
    } else {
      assert ranked == [];
      NothingIsKept(entries, kind, n, left);
    }
  }

  lemma RankedOnce(entries: Entries, keys: seq<SeriesKey>, kind: string)
    requires Distinct(keys)
    ensures var ranked := Ranked(entries, KeysOfKind(keys, kind));
      Distinct(ranked) && (forall k :: k in ranked <==> k in keys && k.kind == kind) &&
      (kind !in SortedKinds(keys) ==> ranked == [])
  {
    hide Ranked, KeysOfKind, SortedKinds;
    var ks := KeysOfKind(keys, kind);
    RankedIn(entries, keys, kind);
    KeysOfKindDistinct(keys, kind);
    RankedIsSorted(entries, ks);
    KindsListed(keys, kind);
    var ranked := Ranked(entries, ks);
    assert ranked != [] ==> ranked[0] in ranked;
  }

  lemma RankedIsSorted(entries: Entries, ks: seq<SeriesKey>)
    requires Distinct(ks)
    ensures Distinct(Ranked(entries, ks))
  {
    SortKeeps(ks, (a: SeriesKey, b: SeriesKey) => Beats(entries, a, b));
    DistinctByMultiset(Ranked(entries, ks), ks);
  }

  lemma KindsListed(keys: seq<SeriesKey>, kind: string)
    ensures kind !in SortedKinds(keys) ==> forall k :: k in keys ==> k.kind != kind
  {
  }

  lemma NothingIsKept(entries: Entries, kind: string, n: nat, left: Entries)
    ensures KeepsTop(entries, [], kind, n, [], left)
  {
  }

  /** The kind's kept keys show their own points, and `$others` the sum of the rest. */
  lemma KeptValue(entries: Entries, ranked: seq<SeriesKey>, kind: string, n: nat,
                  newKeys: seq<SeriesKey>, left: Entries, v: string, t: int)
    requires KeepsTop(entries, ranked, kind, n, KeysOfKind(newKeys, kind), left) && Distinct(ranked)
    requires forall k :: k in ranked ==> k in entries && k.kind == kind && Tupled(k, entries[k], 1)
    requires forall k :: k in newKeys ==> k in left && left[k].kind == k.kind
    ensures var series, key := EmitSeries(left, newKeys), SeriesKey(kind, v);
      var top, rest := if |ranked| <= n then ranked else ranked[..n], if |ranked| <= n then [] else ranked[n..];
      && (v != OTHERS ==> ValueOf(series, kind, [v], t) == if key in top then At(entries[key].points, t) else 0.0)
      && (v != OTHERS ==> (Shown(series, kind, [v]) <==> key in top))
      && ValueOf(series, kind, [OTHERS], t) == KindAt(entries, rest, kind, t)
      && (Shown(series, kind, [OTHERS]) <==> |ranked| > n)
  {
    hide At, KindAt, Absorb, KeysOfKind, EmitSeries, ValueOf, Shown;
    KeysOfKindIn(newKeys, kind);
    if |ranked| > n {
      AbsorbAt(entries, Entry(kind, [OTHERS], [], 0.0), ranked[n..], kind, t);
      FoldedAt(entries, ranked[n..], kind, t);
    } else {
      NoKeysAt(entries, kind, t);
    }
    EmittedValue(left, newKeys, 1, kind, v, t);
    EmittedValue(left, newKeys, 1, kind, OTHERS, t);
    EmittedShown(left, newKeys, 1, kind, v);
    EmittedShown(left, newKeys, 1, kind, OTHERS);
  }

  lemma NoKeysAt(entries: Entries, kind: string, t: int)
    ensures KindAt(entries, [], kind, t) == 0.0
  {
  }

  /** A folding shows the rows of the keys that rank below the limit, and sums the others. */
  lemma FoldedValue(rows: seq<TrendRow>, n: nat, kind: string, v: string, t: int)
    requires UniformArity(rows, 1) && n > 0 && NoLiteralOthers(rows, 1)
    ensures var out, key := Group(rows, 1, n), SeriesKey(kind, v);
      && out.Grouped?
      && (v != OTHERS ==>
            ValueOf(out.series, kind, [v], t) ==
            if key in EntriesOf(rows) && |Ahead(rows, key)| < n then KeyAt(rows, key, t) else 0.0)
      && (v != OTHERS ==>
            (Shown(out.series, kind, [v]) <==> key in EntriesOf(rows) && |Ahead(rows, key)| < n))
      && ValueOf(out.series, kind, [OTHERS], t) == KindAt(EntriesOf(rows), FoldedKeys(rows, n, kind), kind, t)
      && (Shown(out.series, kind, [OTHERS]) <==> |RankedKeys(rows, kind)| > n)
  {
    var entries, keys, key := EntriesOf(rows), Keys(rows), SeriesKey(kind, v);
    GroupingConserves(rows, 1, n, kind, t);
    KeysMatch(rows);
    var (newKeys, left) := TopN(entries, keys, n, 1);
    CollectedTuples(rows, 1);
    EntryAt(rows, key, t);
    RankedPlaces(rows, n, kind, v);
    hide EntriesOf, Keys, FoldKinds, KeysOfKind, Ranked, Ahead, KeyAt, KindAt, At, OthersKey, EmitSeries, ValueOf,
      KeepsTop, Shown;
    KindIsKept(entries, keys, kind, n);
    forall k | k in newKeys ensures k in left && left[k].kind == k.kind {
      FoldedKindFacts(rows, 1, n, k.kind, t);
    }
    KeptValue(entries, RankedKeys(rows, kind), kind, n, newKeys, left, v, t);
  }

  lemma RankedPlaces(rows: seq<TrendRow>, n: nat, kind: string, v: string)
    ensures var ranked, key := RankedKeys(rows, kind), SeriesKey(kind, v);
      && Distinct(ranked) && (forall k :: k in ranked <==> k in EntriesOf(rows) && k.kind == kind)
      && (key in (if |ranked| <= n then ranked else ranked[..n]) <==> key in EntriesOf(rows) && |Ahead(rows, key)| < n)
      && (key in FoldedKeys(rows, n, kind) <==> key in EntriesOf(rows) && |Ahead(rows, key)| >= n)
  {
    var ranked, key := RankedKeys(rows, kind), SeriesKey(kind, v);
    Exact.RankedFacts(rows, kind);
    hide EntriesOf, Keys, KeysOfKind, Ranked, Ahead, StrictlyRanked;
    RankOf(rows, ranked, kind, key, n);
    if key in ranked {
      var i :| 0 <= i < |ranked| && ranked[i] == key;
      assert |ranked| > n ==> (key in ranked[..n] <==> i < n) && (key in ranked[n..] <==> i >= n);
    }
  }

  // ----- the order of the rows does not matter

  function PointFor(key: SeriesKey, t: int): TrendRow -> real {
    (r: TrendRow) => if KeyOf(r) == key && r.time == t then r.value else 0.0
  }

  function ValueFor(key: SeriesKey): TrendRow -> real { (r: TrendRow) => if KeyOf(r) == key then r.value else 0.0 }

  lemma {:induction false} SumsAre(rows: seq<TrendRow>, key: SeriesKey, t: int)
    ensures KeyAt(rows, key, t) == TopBreakdowns.SumBy(rows, PointFor(key, t))
    ensures Total(rows, key) == TopBreakdowns.SumBy(rows, ValueFor(key))
  {
    hide KeyOf;
    if rows != [] { SumsAre(rows[..|rows| - 1], key, t); }
  }

  ghost predicate HasKey(rows: seq<TrendRow>, key: SeriesKey) { exists r :: r in rows && KeyOf(r) == key }

  lemma KeyPresent(rows: seq<TrendRow>, key: SeriesKey)
    ensures key in EntriesOf(rows) <==> HasKey(rows, key)
  {
    hide EntriesOf, KeyOf;
    if key in EntriesOf(rows) {
      Exact.LiteralHasRow(rows, key);
      var i :| 0 <= i < |rows| && KeyOf(rows[i]) == key;
      assert rows[i] in rows;
    }
    if r :| r in rows && KeyOf(r) == key {
      var i :| 0 <= i < |rows| && rows[i] == r;
      Exact.RowKeysCollected(rows, i);
    }
  }

  lemma AnyOrder(a: seq<TrendRow>, b: seq<TrendRow>, key: SeriesKey, t: int)
    requires multiset(a) == multiset(b)
    ensures KeyAt(a, key, t) == KeyAt(b, key, t) && Total(a, key) == Total(b, key)
    ensures key in EntriesOf(a) <==> key in EntriesOf(b)
    ensures forall r :: r in a <==> r in b
  {
    hide EntriesOf, KeyOf, TopBreakdowns.SumBy;
    SumsAre(a, key, t);
    SumsAre(b, key, t);
    TopBreakdowns.SumByPermutation(a, b, PointFor(key, t));
    TopBreakdowns.SumByPermutation(a, b, ValueFor(key));
    SameElements(a, b);
    KeyPresent(a, key);
    KeyPresent(b, key);
  }

  lemma RowsAppend(a: seq<TrendRow>, b: seq<TrendRow>, key: SeriesKey, t: int)
    ensures KeyAt(a + b, key, t) == KeyAt(a, key, t) + KeyAt(b, key, t)
    ensures Total(a + b, key) == Total(a, key) + Total(b, key)
    ensures key in EntriesOf(a + b) <==> key in EntriesOf(a) || key in EntriesOf(b)
  {
    hide EntriesOf, KeyOf, TopBreakdowns.SumBy;
    SumsAre(a + b, key, t);
    SumsAre(a, key, t);
    SumsAre(b, key, t);
    TopBreakdowns.SumByAppend(a, b, PointFor(key, t));
    TopBreakdowns.SumByAppend(a, b, ValueFor(key));
    KeyPresent(a + b, key);
    KeyPresent(a, key);
    KeyPresent(b, key);
  }

  // ----- cells that hold nothing change nothing

  lemma CellsAppend(a: seq<(int, string)>, b: seq<(int, string)>, kind: string, val: (int, string) -> real,
                    key: SeriesKey)
    ensures Total(CellRows(a + b, kind, true, val), key) ==
      Total(CellRows(a, kind, true, val), key) + Total(CellRows(b, kind, true, val), key)
  {
    RowsAppend(CellRows(a, kind, true, val), CellRows(b, kind, true, val), key, 0);
    assert CellRows(a + b, kind, true, val) == CellRows(a, kind, true, val) + CellRows(b, kind, true, val);
  }

  lemma OneCell(c: (int, string), kind: string, val: (int, string) -> real, v: string)
    ensures Total(CellRows([c], kind, true, val), SeriesKey(kind, v)) == if c.1 == v then val(c.0, c.1) else 0.0
  {
    var rows := CellRows([c], kind, true, val);
    assert rows == [TrendRow(c.0, kind, [c.1], val(c.0, c.1))];
    assert rows[..0] == [];
    assert BreakdownKey([c.1]) == c.1;
  }

  function Cut(a: seq<(int, string)>, i: nat): seq<(int, string)>
    requires i < |a|
  {
    a[..i] + a[i + 1..]
  }

  lemma Without(a: seq<(int, string)>, i: nat)
    requires Distinct(a) && i < |a|
    ensures Distinct(Cut(a, i))
    ensures forall x :: x in Cut(a, i) <==> x in a && x != a[i]
  {
    var rest := Cut(a, i);
    assert forall j :: 0 <= j < |rest| ==> rest[j] == a[if j < i then j else j + 1];
    forall x | x in a && x != a[i] ensures x in rest {
      var j :| 0 <= j < |a| && a[j] == x;
      assert rest[if j < i then j else j - 1] == x;
    }
  }

  lemma CutTotal(a: seq<(int, string)>, i: nat, kind: string, val: (int, string) -> real, v: string)
    requires i < |a|
    ensures Total(CellRows(a, kind, true, val), SeriesKey(kind, v)) ==
      Total(CellRows(Cut(a, i), kind, true, val), SeriesKey(kind, v)) + if a[i].1 == v then val(a[i].0, a[i].1) else 0.0
  {
    hide Total, CellRows;
    var a1, c, a2, key := a[..i], a[i], a[i + 1..], SeriesKey(kind, v);
    assert a == a1 + ([c] + a2);
    CellsAppend(a1, [c] + a2, kind, val, key);
    CellsAppend([c], a2, kind, val, key);
    CellsAppend(a1, a2, kind, val, key);
    OneCell(c, kind, val, v);
  }

  /** The longer list adds cells without a value. */
  ghost predicate Pads(a: seq<(int, string)>, b: seq<(int, string)>, val: (int, string) -> real) {
    && (forall c :: c in a ==> c in b)
    && (forall c :: c in b && c !in a ==> val(c.0, c.1) == 0.0)
  }

  lemma HasElement(a: seq<(int, string)>)
    requires a != []
    ensures exists c :: c in a
  {
    assert a[0] in a;
  }

  lemma {:induction false} PaddedTotal(a: seq<(int, string)>, b: seq<(int, string)>, kind: string,
                                       val: (int, string) -> real, v: string)
    requires Distinct(a) && Distinct(b) && Pads(a, b, val)
    ensures Total(CellRows(a, kind, true, val), SeriesKey(kind, v)) ==
      Total(CellRows(b, kind, true, val), SeriesKey(kind, v))
    decreases |b|
  {
    hide Total, CellRows, Cut, Distinct;
    if b == [] {
      if a != [] {
        HasElement(a);
        assert false;
      }
    } else {
      var c := b[0];
      Without(b, 0);
      CutTotal(b, 0, kind, val, v);
      assert |Cut(b, 0)| < |b| by { CutShorter(b, 0); }
      if c in a {
        var i :| 0 <= i < |a| && a[i] == c;
        Without(a, i);
        CutTotal(a, i, kind, val, v);
        PaddedTotal(Cut(a, i), Cut(b, 0), kind, val, v);
      } else {
        PaddedTotal(a, Cut(b, 0), kind, val, v);
      }
    }
  }

  lemma CutShorter(a: seq<(int, string)>, i: nat)
    requires i < |a|
    ensures |Cut(a, i)| == |a| - 1
  {
  }

  lemma {:induction false} TotalAtLeast(list: seq<(int, string)>, kind: string, val: (int, string) -> real, v: string,
                                        t: int)
    requires forall c :: c in list ==> val(c.0, c.1) >= 0.0
    ensures Total(CellRows(list, kind, true, val), SeriesKey(kind, v)) >= 0.0
    ensures (t, v) in list ==> Total(CellRows(list, kind, true, val), SeriesKey(kind, v)) >= val(t, v)
  {
    hide Total, CellRows;
    if list == [] {
      NoCells(kind, val, SeriesKey(kind, v));
    } else {
      var n := |list| - 1;
      TotalAtLeast(list[..n], kind, val, v, t);
      assert list == list[..n] + [list[n]];
      CellsAppend(list[..n], [list[n]], kind, val, SeriesKey(kind, v));
      OneCell(list[n], kind, val, v);
    }
  }

  lemma NoCells(kind: string, val: (int, string) -> real, key: SeriesKey)
    ensures Total(CellRows([], kind, true, val), key) == 0.0
  {
  }
}
