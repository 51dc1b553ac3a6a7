/** With a breakdown, the series named by the rollup are the series named by the raw path, point for
    point; the `$others` series is the same for event counts and never larger for unique users. */
module RollupRefinement {
  import opened Basics
  import opened Breakdowns
  import opened RollupStore
  import opened TrendSeries
  import opened TrendSeriesLaws
  import opened RollupTrends

  // ----- entries collected from one row per cell

  ghost predicate EntryOfCells(entries: Entries, list: seq<(int, string)>, kind: string,
                               val: (int, string) -> real, b: string) {
    var key := SeriesKey(kind, b);
    && (key in entries <==> exists t :: (t, b) in list)
    && (key in entries ==>
          && entries[key].kind == kind && entries[key].breakdowns == [b]
          && (forall t :: At(entries[key].points, t) == if (t, b) in list then val(t, b) else 0.0)
          && (forall p :: p in entries[key].points <==> (p.time, b) in list && p.value == val(p.time, b)))
  }

  lemma {:induction false} CellEntries(list: seq<(int, string)>, kind: string, val: (int, string) -> real, b: string)
    requires Distinct(list)
    ensures EntryOfCells(EntriesOf(CellRows(list, kind, true, val)), list, kind, val, b)
    ensures forall k :: k in EntriesOf(CellRows(list, kind, true, val)) ==> k.kind == kind
  {
    if list != [] {
      var n := |list| - 1;
      var front := list[..n];
      var (t, v) := list[n];
      CellEntries(front, kind, val, b);
      var rows := CellRows(list, kind, true, val);
      assert rows[..n] == CellRows(front, kind, true, val);
      assert BreakdownKey([v]) == v;
      var before := EntriesOf(CellRows(front, kind, true, val));
      assert EntriesOf(rows) == AddRow(before, rows[n]);
      assert list == front + [(t, v)] && (t, v) !in front;
      if v == b {
        var points := if SeriesKey(kind, b) in before then before[SeriesKey(kind, b)].points else [];
        forall t'
          ensures At(points + [Point(t, val(t, v))], t') == At(points, t') + if t' == t then val(t, v) else 0.0
        {
          AtAppend(points, [Point(t, val(t, v))], t');
        }
      }
    }
  }

  // ----- the SQL ranking is the Go ranking

  lemma {:induction false} ValuesAreKeys(list: seq<(int, string)>, kind: string, val: (int, string) -> real, v: string)
    requires Distinct(list)
    ensures var rows := CellRows(list, kind, true, val);
            v in Values(rows) <==> SeriesKey(kind, v) in EntriesOf(rows)
  {
    var rows := CellRows(list, kind, true, val);
    CellEntries(list, kind, val, v);
    hide EntriesOf;
    if v in Values(rows) {
      var i :| 0 <= i < |rows| && rows[i].breakdowns != [] && rows[i].breakdowns[0] == v;
      assert (list[i].0, v) in list;
    }
    if SeriesKey(kind, v) in EntriesOf(rows) {
      var t :| (t, v) in list;
      var i :| 0 <= i < |list| && list[i] == (t, v);
      assert rows[i].breakdowns[0] == v;
    }
  }

  lemma {:induction false} SizeOfKeys(s: set<string>, kind: string)
    ensures |set v | v in s :: SeriesKey(kind, v)| == |s|
  {
    if s != {} {
      var x :| x in s;
      SizeOfKeys(s - {x}, kind);
      var smaller := set v | v in s - {x} :: SeriesKey(kind, v);
      assert (set v | v in s :: SeriesKey(kind, v)) == smaller + {SeriesKey(kind, x)};
      assert SeriesKey(kind, x) !in smaller;
    }
  }

  lemma TopValsAreTopKeys(list: seq<(int, string)>, kind: string, val: (int, string) -> real, n: nat, v: string)
    requires Distinct(list)
    ensures var rows := CellRows(list, kind, true, val);
            var key := SeriesKey(kind, v);
            v in TopVals(rows, kind, n) <==> key in EntriesOf(rows) && |Ahead(rows, key)| < n
  {
    var rows := CellRows(list, kind, true, val);
    var key := SeriesKey(kind, v);
    ValuesAreKeys(list, kind, val, v);
    if key in EntriesOf(rows) {
      var better := set w | w in Values(rows) && Outranks(rows, kind, w, v);
      forall k ensures k in Ahead(rows, key) <==> k.kind == kind && k.breakdown in better {
        ValuesAreKeys(list, kind, val, k.breakdown);
        EntryTotal(rows, k);
        EntryTotal(rows, key);
      }
      assert Ahead(rows, key) == set w | w in better :: SeriesKey(kind, w);
      SizeOfKeys(better, kind);
    }
  }

  // ----- aggregates over disjoint cells

  lemma {:induction false} CountSplits(events: seq<Event>, p: Event -> bool, a: Event -> bool, b: Event -> bool)
    requires forall e :: e in events ==> (p(e) <==> a(e) || b(e)) && !(a(e) && b(e))
    ensures Count(events, p) == Count(events, a) + Count(events, b)
    ensures Uniq(events, p) == Uniq(events, a) + Uniq(events, b)
  {
    if events != [] { CountSplits(events[..|events| - 1], p, a, b); }
  }

  ghost function Among(t: int, s: set<string>): Cells { (t', v') => t' == t && v' in s }

  function BreakdownsOf(keys: seq<SeriesKey>): set<string> {
    if keys == [] then {} else BreakdownsOf(keys[1..]) + {keys[0].breakdown}
  }

  lemma {:induction false} BreakdownsHas(keys: seq<SeriesKey>, kind: string, v: string)
    requires forall k :: k in keys ==> k.kind == kind
    ensures v in BreakdownsOf(keys) <==> SeriesKey(kind, v) in keys
  {
    if keys != [] { BreakdownsHas(keys[1..], kind, v); }
  }

  /** Each folded entry contributes its cell's raw value at the instant. */
  ghost predicate ReadsRaw(entries: Entries, events: seq<Event>, q: Query, keys: seq<SeriesKey>, t: int) {
    forall k :: k in keys ==>
      k.kind == q.kind && k in entries && At(entries[k].points, t) == RawValue(events, q, Only(t, k.breakdown))
  }

  /** The raw values of the keys' cells at the instant, added up. */
  function FoldVal(events: seq<Event>, q: Query, keys: seq<SeriesKey>, t: int): real {
    if keys == [] then 0.0 else RawValue(events, q, Only(t, keys[0].breakdown)) + FoldVal(events, q, keys[1..], t)
  }

  /** Adding up cells: counts add up exactly, distinct users at least reach their union. */
  lemma {:induction false} FoldValIs(events: seq<Event>, q: Query, keys: seq<SeriesKey>, t: int)
    requires Distinct(keys) && forall k :: k in keys ==> k.kind == q.kind
    ensures var among := RawIn(q, Among(t, BreakdownsOf(keys)));
            && (q.metric.TotalCount? ==> FoldVal(events, q, keys, t) == Count(events, among) as real)
            && (q.metric.UniqueUsers? ==> FoldVal(events, q, keys, t) >= |Uniq(events, among)| as real)
  {
    var among := RawIn(q, Among(t, BreakdownsOf(keys)));
    if keys == [] {
      CountPositive(events, among);
    } else {
      var rest, v := keys[1..], keys[0].breakdown;
      FoldValIs(events, q, rest, t);
      assert keys == [keys[0]] + rest && keys[0] !in rest;
      BreakdownsHas(rest, q.kind, v);
      var fewer, one := RawIn(q, Among(t, BreakdownsOf(rest))), RawIn(q, Only(t, v));
      CountSplits(events, among, fewer, one);
      UnionSize(Uniq(events, fewer), Uniq(events, one));
    }
  }

  lemma {:induction false} FoldedReads(entries: Entries, events: seq<Event>, q: Query, keys: seq<SeriesKey>, t: int)
    requires ReadsRaw(entries, events, q, keys, t)
    ensures KindAt(entries, keys, q.kind, t) == FoldVal(events, q, keys, t)
  {
    hide RawValue, At;
    if keys != [] { FoldedReads(entries, events, q, keys[1..], t); }
  }

  lemma UnionSize(a: set<string>, b: set<string>)
    ensures |a + b| <= |a| + |b|
  {
    assert a + b == a + (b - a) && |b - a| <= |b|;
  }

  // ----- the raw side, folded

  /** No selected event carries the literal `$others` in the breakdown dimension. */
  ghost predicate NoLiteralValue(events: seq<Event>, q: Query) {
    forall e :: e in events && RawSelects(q, e) ==> DimValue(e, DimOf(q)) != OTHERS
  }

  function RawVal(events: seq<Event>, q: Query): (int, string) -> real {
    (t, v) => RawValue(events, q, Only(t, v))
  }

  ghost function RawList(events: seq<Event>, q: Query): (list: seq<(int, string)>)
    ensures Distinct(list) && forall c :: c in list <==> c in RawCells(events, q)
  {
    Listed(RawCells(events, q))
  }

  lemma RawRowsAre(events: seq<Event>, q: Query)
    requires q.breakdown.Some?
    ensures RawRows(events, q) == CellRows(RawList(events, q), q.kind, true, RawVal(events, q))
  {
    hide RawValue, Listed;
    CellRowsAgree(RawList(events, q), q.kind, true, (t, v) => RawValue(events, q, Only(t, v)), RawVal(events, q));
  }

  ghost function RawTop(events: seq<Event>, q: Query): set<string> {
    TopVals(RawRows(events, q), q.kind, TopLimit(q))
  }

  /** Entries of the raw rows: one per value, holding the cell values. */
  lemma RawEntry(events: seq<Event>, q: Query, v: string)
    requires q.breakdown.Some?
    ensures EntryOfCells(EntriesOf(RawRows(events, q)), RawList(events, q), q.kind, RawVal(events, q), v)
    ensures forall k :: k in EntriesOf(RawRows(events, q)) ==> k.kind == q.kind
    ensures v in Values(RawRows(events, q)) <==> SeriesKey(q.kind, v) in EntriesOf(RawRows(events, q))
    ensures v in RawTop(events, q) <==>
            SeriesKey(q.kind, v) in EntriesOf(RawRows(events, q)) &&
            |Ahead(RawRows(events, q), SeriesKey(q.kind, v))| < TopLimit(q)
  {
    RawRowsAre(events, q);
    CellEntries(RawList(events, q), q.kind, RawVal(events, q), v);
    ValuesAreKeys(RawList(events, q), q.kind, RawVal(events, q), v);
    TopValsAreTopKeys(RawList(events, q), q.kind, RawVal(events, q), TopLimit(q), v);
  }

  lemma OthersKeyIs(kind: string)
    ensures OthersKey(kind, 1) == SeriesKey(kind, OTHERS) && OthersTuple(1) == [OTHERS]
  {
    assert OthersTuple(1) == [OTHERS];
    assert BreakdownKey([OTHERS]) == OTHERS;
  }

  lemma RawHasNoOthers(events: seq<Event>, q: Query)
    requires q.breakdown.Some? && NoLiteralValue(events, q)
    ensures NoLiteralOthers(RawRows(events, q), 1)
  {
    hide EntriesOf, RawRows;
    forall kind ensures OthersKey(kind, 1) !in EntriesOf(RawRows(events, q)) {
      OthersKeyIs(kind);
      RawEntry(events, q, OTHERS);
    }
  }

  /** An event's value vanishes where its cell does. */
  lemma EmptyCell(events: seq<Event>, q: Query, c: Cells)
    requires forall e :: e in events && RawSelects(q, e) ==> !c(CellOf(q, e).0, CellOf(q, e).1)
    ensures RawValue(events, q, c) == 0.0
  {
    CountPositive(events, RawIn(q, c));
  }

  lemma RawPointAt(events: seq<Event>, q: Query, v: string, t: int)
    requires q.breakdown.Some? && SeriesKey(q.kind, v) in EntriesOf(RawRows(events, q))
    ensures At(EntriesOf(RawRows(events, q))[SeriesKey(q.kind, v)].points, t) == RawValue(events, q, Only(t, v))
  {
    hide EntriesOf, RawRows, RawValue, At;
    RawEntry(events, q, v);
    if (t, v) !in RawList(events, q) {
      forall e | e in events && RawSelects(q, e) ensures !Only(t, v)(CellOf(q, e).0, CellOf(q, e).1) {
        assert CellOf(q, e) in RawCells(events, q);
      }
      EmptyCell(events, q, Only(t, v));
    }
  }

  /** The folded keys of the raw result, in rank order. */
  ghost function Folded(events: seq<Event>, q: Query): seq<SeriesKey> {
    var ranked := RawRanked(events, q);
    if |ranked| > TopLimit(q) then ranked[TopLimit(q)..] else []
  }

  ghost function RawRanked(events: seq<Event>, q: Query): seq<SeriesKey> {
    Ranked(EntriesOf(RawRows(events, q)), Keys(RawRows(events, q)))
  }

  lemma RankedFacts(events: seq<Event>, q: Query)
    requires q.breakdown.Some?
    ensures var entries, keys, ranked := EntriesOf(RawRows(events, q)), Keys(RawRows(events, q)), RawRanked(events, q);
            && Distinct(keys) && KeysOfKind(keys, q.kind) == keys
            && (forall k :: k in keys <==> k in entries) && (forall k :: k in ranked <==> k in entries)
            && (forall k :: k in entries ==> k.kind == q.kind)
            && StrictlyRanked(entries, ranked) && Distinct(ranked)
  {
    var rows := RawRows(events, q);
    KeysMatch(rows);
    RawEntry(events, q, "");
    hide EntriesOf, Keys, RawRows, Ranked;
    AllOfKind(Keys(rows), q.kind);
    RankedStrictly(EntriesOf(rows), Keys(rows), q.kind);
    BeatsIsWeak(EntriesOf(rows));
  }

  lemma FoldedByValue(events: seq<Event>, q: Query, v: string)
    requires q.breakdown.Some?
    ensures SeriesKey(q.kind, v) in Folded(events, q) <==> v in Values(RawRows(events, q)) - RawTop(events, q)
    ensures v in BreakdownsOf(Folded(events, q)) <==> v in Values(RawRows(events, q)) - RawTop(events, q)
  {
    hide EntriesOf, RawRows, RawTop, RawRanked, Ahead;
    RankedFacts(events, q);
    RawEntry(events, q, v);
    var ranked, key := RawRanked(events, q), SeriesKey(q.kind, v);
    RankOf(RawRows(events, q), ranked, q.kind, key, TopLimit(q));
    BreakdownsHas(Folded(events, q), q.kind, v);
  }

  /** What a top-N fold of one kind leaves: the n best keys as they were, and `$others` made of the rest. */
  ghost predicate KeepsTop(entries: Entries, ranked: seq<SeriesKey>, kind: string, n: nat,
                           newKeys: seq<SeriesKey>, left: Entries) {
    var others := SeriesKey(kind, OTHERS);
    && others !in ranked
    && newKeys == (if |ranked| <= n then ranked else ranked[..n] + [others])
    && (forall k :: k in newKeys && k != others ==> k in left && k in entries && left[k] == entries[k])
    && (|ranked| > n ==>
          && (forall k :: k in ranked[n..] ==> k in entries)
          && others in left && left[others] == Absorb(entries, Entry(kind, [OTHERS], [], 0.0), ranked[n..]))
  }

  lemma FoldKeepsTop(entries: Entries, kind: string, ranked: seq<SeriesKey>, n: nat)
    requires Distinct(ranked) && (forall k :: k in ranked ==> k in entries && k.kind == kind)
    requires OthersKey(kind, 1) !in entries
    ensures var (kept, after) := FoldKind(entries, kind, ranked, n, 1);
            KeepsTop(entries, ranked, kind, n, kept, after)
  {
    OthersKeyIs(kind);
    if |ranked| > n { FoldShape(entries, kind, ranked, n, 1); }
  }

  lemma KeepsTopAgrees(entries: Entries, ranked: seq<SeriesKey>, kind: string, n: nat,
                       newKeys: seq<SeriesKey>, left: Entries, left': Entries)
    requires KeepsTop(entries, ranked, kind, n, newKeys, left) && Agree(left', left, kind)
    requires forall k :: k in ranked ==> k.kind == kind
    ensures KeepsTop(entries, ranked, kind, n, newKeys, left')
  {
    hide Absorb;
    assert forall k :: k in newKeys ==> k.kind == kind;
  }

  lemma KeptOfOneKind(entries: Entries, keys: seq<SeriesKey>, kind: string, n: nat)
    requires (forall k :: k in keys ==> k in entries && k.kind == kind) && KeysOfKind(keys, kind) == keys
    requires Distinct(Ranked(entries, keys)) && OthersKey(kind, 1) !in entries
    ensures var (newKeys, left) := TopN(entries, keys, n, 1);
            KeepsTop(entries, Ranked(entries, keys), kind, n, newKeys, left)
  {
    RankedIn(entries, keys, kind);
    FoldKindsPerKind(entries, keys, SortedKinds(keys), n, 1, kind);
    OnlyKind(keys, kind);
    AllOfKind(TopN(entries, keys, n, 1).0, kind);
    FoldKeepsTop(entries, kind, Ranked(entries, keys), n);
    hide FoldKinds, FoldKind, Ranked, KeysOfKind, KeepsTop, Agree, OthersKey;
    if kind in SortedKinds(keys) {
      var (newKeys, left) := TopN(entries, keys, n, 1);
      var (kept, after) := FoldAlone(entries, keys, kind, n, 1);
      KeepsTopAgrees(entries, Ranked(entries, keys), kind, n, kept, after, left);
    } else {
      NothingKept(entries, keys, kind, n);
    }
  }

  lemma OnlyKind(keys: seq<SeriesKey>, kind: string)
    requires forall k :: k in keys ==> k.kind == kind
    ensures forall other :: other in SortedKinds(keys) ==> other == kind
    ensures keys == [] <==> kind !in SortedKinds(keys)
  {
    assert keys != [] ==> keys[0] in keys;
  }

  lemma NothingKept(entries: Entries, keys: seq<SeriesKey>, kind: string, n: nat)
    requires kind !in SortedKinds(keys) && forall k :: k in keys ==> k in entries && k.kind == kind
    ensures var (newKeys, left) := TopN(entries, keys, n, 1);
            KeepsTop(entries, Ranked(entries, keys), kind, n, newKeys, left)
  {
    OnlyKind(keys, kind);
  }

  /** The raw top-N result. */
  lemma RawKept(events: seq<Event>, q: Query)
    requires q.breakdown.Some? && NoLiteralValue(events, q)
    requires forall k :: k in Keys(RawRows(events, q)) ==> k in EntriesOf(RawRows(events, q))
    ensures var entries, keys := EntriesOf(RawRows(events, q)), Keys(RawRows(events, q));
            var (newKeys, left) := TopN(entries, keys, TopLimit(q), 1);
            KeepsTop(entries, RawRanked(events, q), q.kind, TopLimit(q), newKeys, left)
  {
    var rows := RawRows(events, q);
    RankedFacts(events, q);
    RawHasNoOthers(events, q);
    assert OthersKey(q.kind, 1) !in EntriesOf(rows);
    hide EntriesOf, Keys, RawRows, TopN, Ranked, KeepsTop, OthersKey;
    KeptOfOneKind(EntriesOf(rows), Keys(rows), q.kind, TopLimit(q));
  }

  // ----- the rollup side

  ghost function MainVal(table: Table, q: Query, top: set<string>): (int, string) -> real {
    (t, b) => RollupValue(table, q, Labelled(top, t, b))
  }

  ghost function MainList(table: Table, q: Query, top: set<string>): (list: seq<(int, string)>)
    ensures Distinct(list) && forall c :: c in list <==> c in MainCells(table, q, top)
  {
    Listed(MainCells(table, q, top))
  }

  lemma MainRowsAre(ops: seq<Op>, q: Query, now: int)
    requires Served(ops, q, now) && q.breakdown.Some?
    ensures var top := RawTop(Inserted(ops), q);
            MainRows(Stored(ops), q) ==
              CellRows(MainList(Stored(ops), q, top), q.kind, true, MainVal(Stored(ops), q, top))
  {
    hide RollupValue, Listed, GrainRows, RawRows, TopVals;
    SameRows(ops, q, now);
    var top := RawTop(Inserted(ops), q);
    CellRowsAgree(MainList(Stored(ops), q, top), q.kind, true,
                  (t, b) => RollupValue(Stored(ops), q, Labelled(top, t, b)), MainVal(Stored(ops), q, top));
  }

  /** The main query's groups are the occurring cells, relabelled. */
  lemma MainCellsAre(ops: seq<Op>, q: Query, now: int, top: set<string>, t: int, b: string)
    requires Served(ops, q, now)
    ensures (t, b) in MainCells(Stored(ops), q, top) <==>
      exists v :: (t, v) in RawCells(Inserted(ops), q) && Label(top, v) == b
  {
    hide Stored, Inserted, RollupSelects, RawCells, Bucket, Label;
    SameCells(ops, q, now);
    var table := Stored(ops);
    if (t, b) in MainCells(table, q, top) {
      var r :| r in table && RollupSelects(q, r.key) &&
        (t, b) == (Bucket(q.granularity, r.key.day), Label(top, r.key.dimValue));
      assert (t, r.key.dimValue) in RollupCells(table, q);
    }
    if v :| (t, v) in RollupCells(table, q) && Label(top, v) == b {
      var r :| r in table && RollupSelects(q, r.key) && (t, v) == (Bucket(q.granularity, r.key.day), r.key.dimValue);
      assert (Bucket(q.granularity, r.key.day), Label(top, r.key.dimValue)) in MainCells(table, q, top);
    }
  }

  lemma SameOnEvents(events: seq<Event>, q: Query, c: Cells, d: Cells)
    requires forall e :: e in events && RawSelects(q, e) ==>
      c(CellOf(q, e).0, CellOf(q, e).1) == d(CellOf(q, e).0, CellOf(q, e).1)
    ensures RawValue(events, q, c) == RawValue(events, q, d)
  {
    CountAgrees(events, RawIn(q, c), RawIn(q, d));
  }

  /** A named cell of the main query has the raw value. */
  lemma NamedValue(ops: seq<Op>, q: Query, now: int, top: set<string>, t: int, v: string)
    requires Served(ops, q, now) && v in top && v != OTHERS
    ensures RollupValue(Stored(ops), q, Labelled(top, t, v)) == RawValue(Inserted(ops), q, Only(t, v))
  {
    hide RollupValue, RawValue, RawSelects, CellOf;
    SameValue(ops, q, now, Labelled(top, t, v));
    SameOnEvents(Inserted(ops), q, Labelled(top, t, v), Only(t, v));
  }

  lemma SelectedValueIsKnown(events: seq<Event>, q: Query, e: Event)
    requires q.breakdown.Some? && e in events && RawSelects(q, e)
    ensures CellOf(q, e).1 in Values(RawRows(events, q))
  {
    hide EntriesOf, RawRows;
    var (t, v) := CellOf(q, e);
    assert CellOf(q, e) in RawCells(events, q);
    assert (t, v) in RawList(events, q);
    RawEntry(events, q, v);
  }

  /** The `$others` cell of the main query aggregates the events of the folded values. */
  lemma OthersValue(ops: seq<Op>, q: Query, now: int, t: int)
    requires Served(ops, q, now) && q.breakdown.Some? && NoLiteralValue(Inserted(ops), q)
    ensures var events, top := Inserted(ops), RawTop(Inserted(ops), q);
            RollupValue(Stored(ops), q, Labelled(top, t, OTHERS)) ==
            RawValue(events, q, Among(t, Values(RawRows(events, q)) - top))
  {
    var events, top := Inserted(ops), RawTop(Inserted(ops), q);
    var folded := Values(RawRows(events, q)) - top;
    SameValue(ops, q, now, Labelled(top, t, OTHERS));
    forall e | e in events && RawSelects(q, e)
      ensures Labelled(top, t, OTHERS)(CellOf(q, e).0, CellOf(q, e).1) ==
        Among(t, folded)(CellOf(q, e).0, CellOf(q, e).1)
    {
      SelectedValueIsKnown(events, q, e);
    }
    SameOnEvents(events, q, Labelled(top, t, OTHERS), Among(t, folded));
  }

  ghost predicate SamePoints(a: seq<Point>, b: seq<Point>) { forall p :: p in a <==> p in b }

  lemma SameEntries(main: Entries, raw: Entries, ml: seq<(int, string)>, rl: seq<(int, string)>, kind: string,
                    f: (int, string) -> real, g: (int, string) -> real, v: string)
    requires EntryOfCells(main, ml, kind, f, v) && EntryOfCells(raw, rl, kind, g, v)
    requires forall t :: (t, v) in ml <==> (t, v) in rl
    requires forall t :: f(t, v) == g(t, v)
    ensures var key := SeriesKey(kind, v);
            && (key in main <==> key in raw)
            && (key in main ==> main[key].breakdowns == [v] == raw[key].breakdowns &&
                                SamePoints(main[key].points, raw[key].points))
  {
    hide At;
    var key := SeriesKey(kind, v);
    if key in main {
      forall p ensures p in main[key].points <==> p in raw[key].points {
        assert (p.time, v) in ml <==> (p.time, v) in rl;
        assert f(p.time, v) == g(p.time, v);
      }
    }
  }

  /** Named series: exactly the top values, with the raw points. */
  lemma NamedSeries(ops: seq<Op>, q: Query, now: int, v: string)
    requires Served(ops, q, now) && q.breakdown.Some? && v != OTHERS
    ensures var raw, main := EntriesOf(RawRows(Inserted(ops), q)), EntriesOf(MainRows(Stored(ops), q));
            var key := SeriesKey(q.kind, v);
            && (key in main <==> v in RawTop(Inserted(ops), q))
            && (key in main ==> key in raw && main[key].breakdowns == [v] == raw[key].breakdowns &&
                                SamePoints(main[key].points, raw[key].points))
  {
    var events, table, top := Inserted(ops), Stored(ops), RawTop(Inserted(ops), q);
    RawEntry(events, q, v);
    MainRowsAre(ops, q, now);
    CellEntries(MainList(table, q, top), q.kind, MainVal(table, q, top), v);
    hide EntriesOf, RawRows, MainRows, RawTop, Listed, RawCells, MainCells, At, RollupValue, RawValue, Inserted,
      Stored, Served, EntryOfCells;
    forall t ensures (t, v) in MainList(table, q, top) <==> v in top && (t, v) in RawList(events, q) {
      MainCellsAre(ops, q, now, top, t, v);
    }
    if v in top {
      forall t ensures MainVal(table, q, top)(t, v) == RawVal(events, q)(t, v) { NamedValue(ops, q, now, top, t, v); }
      SameEntries(EntriesOf(MainRows(table, q)), EntriesOf(RawRows(events, q)), MainList(table, q, top),
                  RawList(events, q), q.kind, MainVal(table, q, top), RawVal(events, q), v);
    } else {
      NoEntry(EntriesOf(MainRows(table, q)), MainList(table, q, top), q.kind, MainVal(table, q, top), v);
    }
  }

  lemma NoEntry(main: Entries, ml: seq<(int, string)>, kind: string, f: (int, string) -> real, v: string)
    requires EntryOfCells(main, ml, kind, f, v) && forall t :: (t, v) !in ml
    ensures SeriesKey(kind, v) !in main
  {
  }

  /** `$others` is on the rollup side exactly when some value is folded. */
  lemma OthersPresent(ops: seq<Op>, q: Query, now: int)
    requires Served(ops, q, now) && q.breakdown.Some? && NoLiteralValue(Inserted(ops), q)
    ensures var events, main, key := Inserted(ops), EntriesOf(MainRows(Stored(ops), q)), SeriesKey(q.kind, OTHERS);
            && (key in main <==> Values(RawRows(events, q)) - RawTop(events, q) != {})
            && (key in main ==> main[key].breakdowns == [OTHERS])
  {
    var events, table, top := Inserted(ops), Stored(ops), RawTop(Inserted(ops), q);
    var folded := Values(RawRows(events, q)) - top;
    var ml := MainList(table, q, top);
    MainRowsAre(ops, q, now);
    CellEntries(ml, q.kind, MainVal(table, q, top), OTHERS);
    hide EntriesOf, RawRows, MainRows, RawTop, Values, Listed, RawCells, MainCells, At, RollupValue, Inserted, Stored,
      Served, NoLiteralValue;
    forall t
      ensures (t, OTHERS) in ml <==> exists v :: (t, v) in RawList(events, q) && v in folded
    {
      OthersCell(ops, q, now, t);
    }
    forall v
      ensures v in Values(RawRows(events, q)) <==> exists t :: (t, v) in RawList(events, q)
    {
      ValueOccurs(events, q, v);
    }
    if v :| v in folded {
      var t :| (t, v) in RawList(events, q);
      assert (t, OTHERS) in ml;
    }
  }

  /** It holds the aggregate of the folded values' events. */
  lemma OthersAt(ops: seq<Op>, q: Query, now: int, t: int)
    requires Served(ops, q, now) && q.breakdown.Some? && NoLiteralValue(Inserted(ops), q)
    ensures var events, main, key := Inserted(ops), EntriesOf(MainRows(Stored(ops), q)), SeriesKey(q.kind, OTHERS);
            key in main ==>
              At(main[key].points, t) == RawValue(events, q, Among(t, Values(RawRows(events, q)) - RawTop(events, q)))
  {
    var events, table, top := Inserted(ops), Stored(ops), RawTop(Inserted(ops), q);
    var folded := Values(RawRows(events, q)) - top;
    var ml := MainList(table, q, top);
    MainRowsAre(ops, q, now);
    CellEntries(ml, q.kind, MainVal(table, q, top), OTHERS);
    OthersValue(ops, q, now, t);
    hide EntriesOf, RawRows, MainRows, RawTop, Values, Listed, RawCells, MainCells, At, RollupValue, RawValue,
      Inserted, Stored, Served, NoLiteralValue;
    if (t, OTHERS) !in ml {
      OthersCell(ops, q, now, t);
      NothingAmong(events, q, t, folded);
    }
  }

  lemma NothingAmong(events: seq<Event>, q: Query, t: int, folded: set<string>)
    requires forall v :: (t, v) in RawList(events, q) ==> v !in folded
    ensures RawValue(events, q, Among(t, folded)) == 0.0
  {
    forall e | e in events && RawSelects(q, e) ensures !Among(t, folded)(CellOf(q, e).0, CellOf(q, e).1) {
      assert CellOf(q, e) in RawCells(events, q);
    }
    EmptyCell(events, q, Among(t, folded));
  }

  lemma ValueOccurs(events: seq<Event>, q: Query, v: string)
    requires q.breakdown.Some?
    ensures v in Values(RawRows(events, q)) <==> exists t :: (t, v) in RawList(events, q)
  {
    hide EntriesOf, RawRows, RawCells;
    RawEntry(events, q, v);
  }

  lemma OthersCell(ops: seq<Op>, q: Query, now: int, t: int)
    requires Served(ops, q, now) && q.breakdown.Some? && NoLiteralValue(Inserted(ops), q)
    ensures var events, top := Inserted(ops), RawTop(Inserted(ops), q);
            (t, OTHERS) in MainList(Stored(ops), q, top) <==>
            exists v :: (t, v) in RawList(events, q) && v in Values(RawRows(events, q)) - top
  {
    var events, top := Inserted(ops), RawTop(Inserted(ops), q);
    MainCellsAre(ops, q, now, top, t, OTHERS);
    hide EntriesOf, RawRows, MainCells, Stored, Served, RawTop;
    forall v | (t, v) in RawList(events, q) ensures v in Values(RawRows(events, q)) && v != OTHERS {
      ValueOccurs(events, q, v);
      var e :| e in events && RawSelects(q, e) && CellOf(q, e) == (t, v);
    }
  }

  // ----- the emitted series

  ghost predicate HasSeries(series: seq<Series>, v: string) { exists s :: s in series && s.breakdowns == [v] }

  ghost predicate Shows(series: seq<Series>, v: string, p: Point) {
    exists s :: s in series && s.breakdowns == [v] && p in s.points
  }

  /** Value the series labelled v shows at bucket t. */
  function ValueAt(series: seq<Series>, v: string, t: int): real {
    if series == [] then 0.0
    else (if series[0].breakdowns == [v] then At(series[0].points, t) else 0.0) + ValueAt(series[1..], v, t)
  }

  ghost predicate WellLabelled(entries: Entries, keys: seq<SeriesKey>, kind: string) {
    Distinct(keys) &&
    forall k :: k in keys ==> k in entries && k.kind == kind && entries[k].breakdowns == [k.breakdown]
  }

  lemma {:induction false} EmittedSeries(entries: Entries, keys: seq<SeriesKey>, kind: string, v: string, t: int)
    requires WellLabelled(entries, keys, kind)
    ensures var series, key := EmitSeries(entries, keys), SeriesKey(kind, v);
            && (HasSeries(series, v) <==> key in keys)
            && (forall p :: Shows(series, v, p) <==> key in keys && p in entries[key].points)
            && ValueAt(series, v, t) == if key in keys then At(entries[key].points, t) else 0.0
  {
    hide SortPoints, At;
    if keys != [] {
      var k, rest := keys[0], keys[1..];
      assert keys == [k] + rest && k !in rest;
      EmittedSeries(entries, rest, kind, v, t);
      var series := EmitSeries(entries, keys);
      assert series[1..] == EmitSeries(entries, rest);
      assert series == [series[0]] + series[1..];
      SortedPointsAt(entries[k].points, t);
      SortedPointsSame(entries[k].points);
    }
  }

  lemma SortedPointsSame(points: seq<Point>)
    ensures SamePoints(SortPoints(points), points)
  {
    SortKeeps(points, (a: Point, b: Point) => a.time < b.time);
    SameElements(SortPoints(points), points);
  }

  // ----- the theorem

  /** The folded keys, each once, read the raw values of their cells. */
  lemma FoldedCells(events: seq<Event>, q: Query, t: int)
    requires q.breakdown.Some?
    ensures var rest := Folded(events, q);
            && Distinct(rest) && (forall k :: k in rest ==> k.kind == q.kind)
            && (|RawRanked(events, q)| > TopLimit(q) <==> rest != [])
            && ReadsRaw(EntriesOf(RawRows(events, q)), events, q, rest, t)
  {
    var entries, rest := EntriesOf(RawRows(events, q)), Folded(events, q);
    RankedFacts(events, q);
    hide EntriesOf, RawRows, RawRanked, At, RawValue;
    forall k | k in rest
      ensures k.kind == q.kind && k in entries && At(entries[k].points, t) == RawValue(events, q, Only(t, k.breakdown))
    {
      RawPointAt(events, q, k.breakdown, t);
    }
  }

  /** Their values are those outside the top. */
  lemma FoldedValues(events: seq<Event>, q: Query)
    requires q.breakdown.Some?
    ensures BreakdownsOf(Folded(events, q)) == Values(RawRows(events, q)) - RawTop(events, q)
    ensures Folded(events, q) != [] <==> BreakdownsOf(Folded(events, q)) != {}
  {
    var rest := Folded(events, q);
    if rest != [] { assert rest[0].breakdown in BreakdownsOf(rest); }
    hide RawRows, RawTop, Values, Folded, BreakdownsOf;
    forall v ensures v in BreakdownsOf(rest) <==> v in Values(RawRows(events, q)) - RawTop(events, q) {
      FoldedByValue(events, q, v);
    }
  }

  /** `$others` on the raw side: there when some value is folded, holding the folded series' sum. */
  lemma RawOthers(events: seq<Event>, q: Query, t: int)
    requires q.breakdown.Some? && NoLiteralValue(events, q)
    ensures var folded, sum := Values(RawRows(events, q)) - RawTop(events, q),
                               KindAt(EntriesOf(RawRows(events, q)), Folded(events, q), q.kind, t);
            && (|RawRanked(events, q)| > TopLimit(q) <==> folded != {})
            && (q.metric.TotalCount? ==> sum == RawValue(events, q, Among(t, folded)))
            && (q.metric.UniqueUsers? ==> sum >= RawValue(events, q, Among(t, folded)))
  {
    var rest := Folded(events, q);
    FoldedCells(events, q, t);
    FoldedValues(events, q);
    hide EntriesOf, RawRows, RawTop, Values, RawRanked, Folded, BreakdownsOf, FoldVal, KindAt, ReadsRaw, Count, Uniq;
    FoldedReads(EntriesOf(RawRows(events, q)), events, q, rest, t);
    FoldValIs(events, q, rest, t);
  }

  lemma TopIsRanked(events: seq<Event>, q: Query, v: string)
    requires q.breakdown.Some?
    ensures var ranked, n := RawRanked(events, q), TopLimit(q);
            v in RawTop(events, q) <==> SeriesKey(q.kind, v) in (if |ranked| <= n then ranked else ranked[..n])
  {
    hide EntriesOf, RawRows, RawTop, RawRanked, Ahead;
    RankedFacts(events, q);
    RawEntry(events, q, v);
    var ranked, n, key := RawRanked(events, q), TopLimit(q), SeriesKey(q.kind, v);
    RankOf(RawRows(events, q), ranked, q.kind, key, n);
    if key in ranked {
      var i :| 0 <= i < |ranked| && ranked[i] == key;
      assert |ranked| > n ==> (key in ranked[..n] <==> i < n);
    }
  }

  lemma RawIsLabelled(events: seq<Event>, q: Query)
    requires q.breakdown.Some? && NoLiteralValue(events, q)
    requires forall k :: k in Keys(RawRows(events, q)) ==> k in EntriesOf(RawRows(events, q))
    ensures var (newKeys, left) := TopN(EntriesOf(RawRows(events, q)), Keys(RawRows(events, q)), TopLimit(q), 1);
            WellLabelled(left, newKeys, q.kind)
  {
    var entries, keys := EntriesOf(RawRows(events, q)), Keys(RawRows(events, q));
    RankedFacts(events, q);
    RawKept(events, q);
    hide EntriesOf, Keys, RawRows, RawRanked, TopN, KeepsTop, WellLabelled;
    var (newKeys, left) := TopN(entries, keys, TopLimit(q), 1);
    forall k | k in RawRanked(events, q) ensures entries[k].breakdowns == [k.breakdown] {
      RawEntry(events, q, k.breakdown);
    }
    KeptIsLabelled(entries, RawRanked(events, q), q.kind, TopLimit(q), newKeys, left);
  }

  lemma KeptIsLabelled(entries: Entries, ranked: seq<SeriesKey>, kind: string, n: nat, newKeys: seq<SeriesKey>,
                       left: Entries)
    requires KeepsTop(entries, ranked, kind, n, newKeys, left) && Distinct(ranked)
    requires forall k :: k in ranked ==> k in entries && k.kind == kind && entries[k].breakdowns == [k.breakdown]
    ensures WellLabelled(left, newKeys, kind)
  {
    hide Absorb;
    if |ranked| > n { AbsorbLabels(entries, Entry(kind, [OTHERS], [], 0.0), ranked[n..]); }
  }

  lemma AbsorbLabels(entries: Entries, others: Entry, rest: seq<SeriesKey>)
    requires forall k :: k in rest ==> k in entries
    ensures Absorb(entries, others, rest).breakdowns == others.breakdowns
  {
    if rest != [] { AbsorbLabels(entries, others, rest[..|rest| - 1]); }
  }

  /** The raw result, series by series. */
  lemma RawSide(events: seq<Event>, q: Query, v: string, t: int)
    requires q.breakdown.Some? && NoLiteralValue(events, q)
    ensures var raw := RawResult(events, q);
            var folded, entries := Values(RawRows(events, q)) - RawTop(events, q), EntriesOf(RawRows(events, q));
            && raw.Grouped?
            && (v != OTHERS ==>
                  && (HasSeries(raw.series, v) <==> v in RawTop(events, q))
                  && (forall p :: Shows(raw.series, v, p) <==>
                        v in RawTop(events, q) && SeriesKey(q.kind, v) in entries &&
                          p in entries[SeriesKey(q.kind, v)].points))
            && (HasSeries(raw.series, OTHERS) <==> folded != {})
            && (folded != {} ==> ValueAt(raw.series, OTHERS, t) == KindAt(entries, Folded(events, q), q.kind, t))
            && (folded == {} ==> ValueAt(raw.series, OTHERS, t) == 0.0)
  {
    var rows := RawRows(events, q);
    var entries, keys, n := EntriesOf(rows), Keys(rows), TopLimit(q);
    KeysMatch(rows);
    RawGroups(events, q);
    RawKept(events, q);
    RawIsLabelled(events, q);
    RankedFacts(events, q);
    RawOthers(events, q, t);
    TopIsRanked(events, q, v);
    hide EntriesOf, Keys, RawRows, RawTop, RawRanked, TopN, Values, KindAt, At, RawResult, RawValue, KeepsTop,
      WellLabelled, HasSeries, Shows, ValueAt, NoLiteralValue;
    var (newKeys, left) := TopN(entries, keys, n, 1);
    KeptSeries(entries, RawRanked(events, q), q.kind, n, newKeys, left, v, t);
  }

  lemma RawGroups(events: seq<Event>, q: Query)
    requires q.breakdown.Some? && NoLiteralValue(events, q)
    requires forall k :: k in Keys(RawRows(events, q)) ==> k in EntriesOf(RawRows(events, q))
    ensures var (newKeys, left) := TopN(EntriesOf(RawRows(events, q)), Keys(RawRows(events, q)), TopLimit(q), 1);
            (forall k :: k in newKeys ==> k in left) && RawResult(events, q) == Grouped(EmitSeries(left, newKeys))
  {
    RawIsLabelled(events, q);
    assert UniformArity(RawRows(events, q), 1);
    hide EntriesOf, Keys, RawRows, TopN, UniformArity;
  }

  /** Series of a top-N fold: the kept keys with their own points, and `$others` with the folded sum. */
  lemma KeptSeries(entries: Entries, ranked: seq<SeriesKey>, kind: string, n: nat,
                   newKeys: seq<SeriesKey>, left: Entries, v: string, t: int)
    requires KeepsTop(entries, ranked, kind, n, newKeys, left) && WellLabelled(left, newKeys, kind)
    requires forall k :: k in ranked ==> k in entries && k.kind == kind
    ensures var series, key := EmitSeries(left, newKeys), SeriesKey(kind, v);
            var top, rest := if |ranked| <= n then ranked else ranked[..n], if |ranked| <= n then [] else ranked[n..];
            && (v != OTHERS ==>
                  && (HasSeries(series, v) <==> key in top)
                  && (forall p :: Shows(series, v, p) <==> key in top && p in entries[key].points))
            && (HasSeries(series, OTHERS) <==> |ranked| > n)
            && (ValueAt(series, OTHERS, t) == if |ranked| > n then KindAt(entries, rest, kind, t) else 0.0)
  {
    hide At, KindAt, Absorb, HasSeries, Shows, ValueAt;
    EmittedSeries(left, newKeys, kind, v, t);
    EmittedSeries(left, newKeys, kind, OTHERS, t);
    if |ranked| > n {
      FoldedAt(entries, ranked[n..], kind, t);
      assert SeriesKey(kind, OTHERS) in newKeys;
    }
  }

  lemma FoldedAt(entries: Entries, rest: seq<SeriesKey>, kind: string, t: int)
    requires forall k :: k in rest ==> k in entries && k.kind == kind
    ensures At(Absorb(entries, Entry(kind, [OTHERS], [], 0.0), rest).points, t) == KindAt(entries, rest, kind, t)
  {
    AbsorbAt(entries, Entry(kind, [OTHERS], [], 0.0), rest, kind, t);
  }

  lemma RollupIsLabelled(ops: seq<Op>, q: Query, now: int)
    requires Served(ops, q, now) && q.breakdown.Some?
    ensures var rows := MainRows(Stored(ops), q);
            && UniformArity(rows, 1) && WellLabelled(EntriesOf(rows), Keys(rows), q.kind)
            && forall k :: k in Keys(rows) <==> k in EntriesOf(rows)
  {
    var table, top := Stored(ops), RawTop(Inserted(ops), q);
    var rows := MainRows(table, q);
    MainRowsAre(ops, q, now);
    KeysMatch(rows);
    hide EntriesOf, Keys, RollupValue, Listed, MainCells, At;
    forall k | k in EntriesOf(rows) ensures k.kind == q.kind && EntriesOf(rows)[k].breakdowns == [k.breakdown] {
      CellEntries(MainList(table, q, top), q.kind, MainVal(table, q, top), k.breakdown);
    }
  }

  /** The rollup result, series by series. */
  lemma RollupSide(ops: seq<Op>, q: Query, now: int, v: string, t: int)
    requires Served(ops, q, now) && q.breakdown.Some?
    ensures var rollup := RollupResult(Stored(ops), q);
            var main, key := EntriesOf(MainRows(Stored(ops), q)), SeriesKey(q.kind, v);
            && rollup.Grouped?
            && (HasSeries(rollup.series, v) <==> key in main)
            && (forall p :: Shows(rollup.series, v, p) <==> key in main && p in main[key].points)
            && ValueAt(rollup.series, v, t) == if key in main then At(main[key].points, t) else 0.0
  {
    var rows := MainRows(Stored(ops), q);
    RollupIsLabelled(ops, q, now);
    hide EntriesOf, Keys, MainRows, At, WellLabelled, UniformArity, HasSeries, Shows, ValueAt;
    hide EmitSeries, RollupResult;
    EmittedSeries(EntriesOf(rows), Keys(rows), q.kind, v, t);
    RollupEmits(ops, q, now);
  }

  lemma RollupEmits(ops: seq<Op>, q: Query, now: int)
    requires Served(ops, q, now) && q.breakdown.Some?
    requires forall k :: k in Keys(MainRows(Stored(ops), q)) <==> k in EntriesOf(MainRows(Stored(ops), q))
    requires UniformArity(MainRows(Stored(ops), q), 1)
    ensures RollupResult(Stored(ops), q) ==
      Grouped(EmitSeries(EntriesOf(MainRows(Stored(ops), q)), Keys(MainRows(Stored(ops), q))))
  {
    hide EntriesOf, Keys, MainRows, EmitSeries, UniformArity;
  }

  /** The fast path refines the raw path: for any ingestion and merge history, any eligible request
      and any metric, both name the same series with the same points; `$others` exists on both or
      neither, is equal for event counts, and for unique users is at most the raw one. */
  lemma RollupRefinesRaw(ops: seq<Op>, q: Query, now: int, v: string, t: int)
    requires Served(ops, q, now) && q.breakdown.Some? && NoLiteralValue(Inserted(ops), q)
    ensures var raw, rollup := RawResult(Inserted(ops), q), RollupResult(Stored(ops), q);
            && raw.Grouped? && rollup.Grouped?
            && (HasSeries(rollup.series, v) <==> HasSeries(raw.series, v))
            && (v != OTHERS ==> forall p :: Shows(rollup.series, v, p) <==> Shows(raw.series, v, p))
            && (q.metric.TotalCount? ==> ValueAt(rollup.series, OTHERS, t) == ValueAt(raw.series, OTHERS, t))
            && (q.metric.UniqueUsers? ==> ValueAt(rollup.series, OTHERS, t) <= ValueAt(raw.series, OTHERS, t))
  {
    var events := Inserted(ops);
    hide EntriesOf, RawRows, MainRows, RawResult, RollupResult, RawTop, Values, Folded, KindAt, At, HasSeries, Shows,
      ValueAt, RawValue, Inserted, Stored, Served, NoLiteralValue;
    RawSide(events, q, v, t);
    RollupSide(ops, q, now, v, t);
    RollupSide(ops, q, now, OTHERS, t);
    OthersPresent(ops, q, now);
    OthersAt(ops, q, now, t);
    RawOthers(events, q, t);
    if v != OTHERS { NamedSeries(ops, q, now, v); }
  }
}
