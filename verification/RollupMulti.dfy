/** Trends over several event kinds. The raw path scans once and crosses the cells of all queries with the
    queries; the rollup answers per query and fills the grid with zeros. A kind may be asked for more than once. */
module RollupMulti {
  import opened Basics
  import opened Breakdowns
  import opened WindowGuard
  import opened RollupStore
  import opened TrendSeries
  import opened TrendSeriesLaws
  import opened RollupTrends
  import opened RollupRefinement
  import opened ShownValues
  import ZeroFill

  // ----- the request and its two answers

  /** The kind and the metric are each query's own, and all else is shared. */
  ghost predicate OneRequest(qs: seq<Query>) {
    && |qs| > 1
    && (forall i :: 0 <= i < |qs| ==> qs[i] == qs[0].(kind := qs[i].kind, metric := qs[i].metric))
  }

  /** The scan admits the events of every kind; cookieless ids are left out inside the aggregates only. */
  ghost predicate Scans(qs: seq<Query>, e: Event) {
    exists i :: 0 <= i < |qs| && e.kind == qs[i].kind && qs[i].from <= e.occur < qs[i].to &&
      (!qs[i].includeBots ==> !e.bot)
  }

  ghost function ScannedCells(events: seq<Event>, qs: seq<Query>): set<(int, string)>
    requires qs != []
  {
    set e | e in events && Scans(qs, e) :: CellOf(qs[0], e)
  }

  /** The rows of the queries, one query after another. */
  function Laid(qs: seq<Query>, part: Query -> seq<TrendRow>): seq<TrendRow> {
    if qs == [] then [] else Laid(qs[..|qs| - 1], part) + part(qs[|qs| - 1])
  }

  ghost function CrossedPart(events: seq<Event>, qs: seq<Query>): Query -> seq<TrendRow>
    requires qs != []
  {
    q => PaddedRows(events, q, ScannedCells(events, qs))
  }

  ghost function UnitedPart(table: Table): Query -> seq<TrendRow> { q => KindRows(table, q) }

  /** The CROSS JOIN: every scanned cell, for every query, in any order. */
  ghost predicate CrossJoined(rows: seq<TrendRow>, events: seq<Event>, qs: seq<Query>)
    requires qs != []
  {
    multiset(rows) == multiset(Laid(qs, CrossedPart(events, qs)))
  }

  /** The UNION ALL of the queries' own rows, in any order. */
  ghost predicate United(rows: seq<TrendRow>, table: Table, qs: seq<Query>) {
    multiset(rows) == multiset(Laid(qs, UnitedPart(table)))
  }

  ghost function PaddedRows(events: seq<Event>, q: Query, cells: set<(int, string)>): seq<TrendRow> {
    CellRows(Listed(cells), q.kind, q.breakdown.Some?, RawVal(events, q))
  }

  ghost function KindRows(table: Table, q: Query): seq<TrendRow> {
    if q.breakdown.None? then GrainRows(table, q) else MainRows(table, q)
  }

  function KindsIn(qs: seq<Query>): seq<string> { seq(|qs|, i requires 0 <= i < |qs| => qs[i].kind) }

  // ----- the scan holds every kind's cells, and nothing of the kind in its other cells

  lemma ScannedHasRaw(events: seq<Event>, qs: seq<Query>, i: nat)
    requires OneRequest(qs) && i < |qs|
    ensures RawCells(events, qs[i]) <= ScannedCells(events, qs)
  {
    hide DimValue, Cookieless, Bucket;
    forall c | c in RawCells(events, qs[i]) ensures c in ScannedCells(events, qs) {
      var e :| e in events && RawSelects(qs[i], e) && CellOf(qs[i], e) == c;
      assert Scans(qs, e);
    }
  }

  lemma EmptyOutside(events: seq<Event>, q: Query, c: (int, string))
    requires c !in RawCells(events, q)
    ensures RawVal(events, q)(c.0, c.1) == 0.0
  {
    hide RawValue;
    forall e | e in events && RawSelects(q, e) ensures !Only(c.0, c.1)(CellOf(q, e).0, CellOf(q, e).1) {
      assert CellOf(q, e) in RawCells(events, q);
    }
    EmptyCell(events, q, Only(c.0, c.1));
  }

  lemma RawValPositive(events: seq<Event>, q: Query, c: (int, string))
    ensures RawVal(events, q)(c.0, c.1) >= 0.0
    ensures c in RawCells(events, q) ==> RawVal(events, q)(c.0, c.1) > 0.0
  {
    hide CellOf, RawSelects, RawIn, Count, Uniq, Value;
    var p := RawIn(q, Only(c.0, c.1));
    CountPositive(events, p);
    ValueSign(q.metric, Count(events, p), Uniq(events, p));
    if c in RawCells(events, q) {
      var e :| e in events && RawSelects(q, e) && CellOf(q, e) == c;
      InItsCell(q, e);
      assert p(e);
    }
  }

  lemma InItsCell(q: Query, e: Event)
    requires RawSelects(q, e)
    ensures RawIn(q, Only(CellOf(q, e).0, CellOf(q, e).1))(e)
  {
  }

  lemma ValueSign(m: Metric, cnt: nat, ids: set<string>)
    ensures Value(m, cnt, ids) >= 0.0
    ensures cnt > 0 && ids != {} ==> Value(m, cnt, ids) > 0.0
  {
    assert ids != {} ==> |ids| > 0;
    if m.PerUserAvg? && |ids| > 0 { assert cnt as real / |ids| as real * |ids| as real == cnt as real; }
  }

  /** The rows of a kind over any cells that include its own. */
  lemma PaddedKind(events: seq<Event>, q: Query, cells: set<(int, string)>, v: string, t: int)
    requires q.breakdown.Some? && RawCells(events, q) <= cells
    ensures var rows, key := PaddedRows(events, q, cells), SeriesKey(q.kind, v);
      && KeyAt(rows, key, t) == RawVal(events, q)(t, v)
      && Total(rows, key) == Total(RawRows(events, q), key)
      && (key in EntriesOf(rows) <==> exists s :: (s, v) in cells)
  {
    var rows, key, list := PaddedRows(events, q, cells), SeriesKey(q.kind, v), Listed(cells);
    hide RawCells, RawVal, EntriesOf, CellRows, At;
    EntryAt(rows, key, t);
    CellEntries(list, q.kind, RawVal(events, q), v);
    if (t, v) !in cells { EmptyOutside(events, q, (t, v)); }
    RawRowsAre(events, q);
    forall c: (int, string) | c in list && c !in RawList(events, q) ensures RawVal(events, q)(c.0, c.1) == 0.0 {
      EmptyOutside(events, q, c);
    }
    PaddedTotal(RawList(events, q), list, q.kind, RawVal(events, q), v);
  }

  // ----- sums over the queries of one kind

  function KindSum(qs: seq<Query>, kind: string, f: Query -> real): real {
    if qs == [] then 0.0
    else
      var q := qs[|qs| - 1];
      KindSum(qs[..|qs| - 1], kind, f) + if q.kind == kind then f(q) else 0.0
  }

  ghost predicate OfKind(qs: seq<Query>, kind: string, i: int) { 0 <= i < |qs| && qs[i].kind == kind }

  lemma {:induction false} KindSumAgrees(qs: seq<Query>, kind: string, f: Query -> real, g: Query -> real)
    requires forall i :: OfKind(qs, kind, i) ==> f(qs[i]) == g(qs[i])
    ensures KindSum(qs, kind, f) == KindSum(qs, kind, g)
  {
    if qs != [] {
      var n := |qs| - 1;
      forall i | OfKind(qs[..n], kind, i) ensures f(qs[i]) == g(qs[i]) { assert OfKind(qs, kind, i); }
      KindSumAgrees(qs[..n], kind, f, g);
      assert qs[n].kind == kind ==> OfKind(qs, kind, n);
    }
  }

  lemma {:induction false} KindSumBelow(qs: seq<Query>, kind: string, f: Query -> real, g: Query -> real)
    requires forall i :: OfKind(qs, kind, i) ==> f(qs[i]) <= g(qs[i])
    ensures KindSum(qs, kind, f) <= KindSum(qs, kind, g)
    ensures (exists i :: OfKind(qs, kind, i) && f(qs[i]) < g(qs[i])) ==> KindSum(qs, kind, f) < KindSum(qs, kind, g)
  {
    if qs != [] {
      var n := |qs| - 1;
      forall i | OfKind(qs[..n], kind, i) ensures f(qs[i]) <= g(qs[i]) { assert OfKind(qs, kind, i); }
      KindSumBelow(qs[..n], kind, f, g);
      assert qs[n].kind == kind ==> OfKind(qs, kind, n);
      if i :| OfKind(qs, kind, i) && f(qs[i]) < g(qs[i]) {
        if i < n { assert OfKind(qs[..n], kind, i); }
      }
    }
  }

  function Nothing(): Query -> real { q => 0.0 }

  lemma {:induction false} NothingSums(qs: seq<Query>, kind: string)
    ensures KindSum(qs, kind, Nothing()) == 0.0
  {
    if qs != [] { NothingSums(qs[..|qs| - 1], kind); }
  }

  lemma {:induction false} KindSumAdds(qs: seq<Query>, kind: string, f: Query -> real, g: Query -> real,
                                       h: Query -> real)
    requires forall i :: OfKind(qs, kind, i) ==> h(qs[i]) == f(qs[i]) + g(qs[i])
    ensures KindSum(qs, kind, h) == KindSum(qs, kind, f) + KindSum(qs, kind, g)
  {
    if qs != [] {
      var n := |qs| - 1;
      forall i | OfKind(qs[..n], kind, i) ensures h(qs[i]) == f(qs[i]) + g(qs[i]) { assert OfKind(qs, kind, i); }
      KindSumAdds(qs[..n], kind, f, g, h);
      assert qs[n].kind == kind ==> OfKind(qs, kind, n);
    }
  }

  /** The kind is asked for once, by query i. */
  ghost predicate Once(qs: seq<Query>, i: int) {
    0 <= i < |qs| && forall j :: OfKind(qs, qs[i].kind, j) ==> j == i
  }

  lemma {:induction false} OnceSum(qs: seq<Query>, i: nat, f: Query -> real)
    requires Once(qs, i)
    ensures KindSum(qs, qs[i].kind, f) == f(qs[i])
  {
    var n := |qs| - 1;
    assert qs[n].kind == qs[i].kind ==> OfKind(qs, qs[i].kind, n);
    if i < n {
      forall j | OfKind(qs[..n], qs[i].kind, j) ensures j == i { assert OfKind(qs, qs[i].kind, j); }
      OnceSum(qs[..n], i, f);
    } else {
      forall j ensures !OfKind(qs[..n], qs[i].kind, j) {
        if OfKind(qs[..n], qs[i].kind, j) { assert OfKind(qs, qs[i].kind, j); }
      }
      KindSumAgrees(qs[..n], qs[i].kind, f, Nothing());
      NothingSums(qs[..n], qs[i].kind);
    }
  }

  // ----- rows laid together

  function AtIn(part: Query -> seq<TrendRow>, key: SeriesKey, t: int): Query -> real { q => KeyAt(part(q), key, t) }

  function TotalIn(part: Query -> seq<TrendRow>, key: SeriesKey): Query -> real { q => Total(part(q), key) }

  ghost predicate OwnRows(rows: seq<TrendRow>, kind: string) { forall r :: r in rows ==> r.kind == kind }

  lemma OtherRows(rows: seq<TrendRow>, kind: string, key: SeriesKey, t: int)
    requires OwnRows(rows, kind) && key.kind != kind
    ensures KeyAt(rows, key, t) == 0.0 && Total(rows, key) == 0.0 && key !in EntriesOf(rows)
  {
    hide EntriesOf, BreakdownKey;
    KeyPresent(rows, key);
    EntryAt(rows, key, t);
    EntryTotal(rows, key);
  }

  /** Some query of the kind has a row with the key. */
  ghost predicate SomeHas(qs: seq<Query>, part: Query -> seq<TrendRow>, key: SeriesKey) {
    exists i :: OfKind(qs, key.kind, i) && key in EntriesOf(part(qs[i]))
  }

  lemma {:induction false} LaidSums(qs: seq<Query>, part: Query -> seq<TrendRow>, key: SeriesKey, t: int)
    requires forall i :: 0 <= i < |qs| ==> OwnRows(part(qs[i]), qs[i].kind)
    ensures KeyAt(Laid(qs, part), key, t) == KindSum(qs, key.kind, AtIn(part, key, t))
    ensures Total(Laid(qs, part), key) == KindSum(qs, key.kind, TotalIn(part, key))
    ensures key in EntriesOf(Laid(qs, part)) <==> SomeHas(qs, part, key)
  {
    if qs != [] {
      hide EntriesOf, OwnRows, KeyAt, Total;
      var n := |qs| - 1;
      LaidSums(qs[..n], part, key, t);
      RowsAppend(Laid(qs[..n], part), part(qs[n]), key, t);
      if qs[n].kind != key.kind { OtherRows(part(qs[n]), qs[n].kind, key, t); }
      SomeHasSnoc(qs, part, key);
    }
  }

  lemma SomeHasSnoc(qs: seq<Query>, part: Query -> seq<TrendRow>, key: SeriesKey)
    requires qs != []
    ensures var n := |qs| - 1;
      SomeHas(qs, part, key) <==>
      SomeHas(qs[..n], part, key) || (qs[n].kind == key.kind && key in EntriesOf(part(qs[n])))
  {
    hide EntriesOf;
    var n := |qs| - 1;
    if i :| OfKind(qs, key.kind, i) && key in EntriesOf(part(qs[i])) {
      if i < n { assert OfKind(qs[..n], key.kind, i) && key in EntriesOf(part(qs[..n][i])); }
    }
    if i :| OfKind(qs[..n], key.kind, i) && key in EntriesOf(part(qs[..n][i])) {
      assert OfKind(qs, key.kind, i) && key in EntriesOf(part(qs[i]));
    }
    if qs[n].kind == key.kind && key in EntriesOf(part(qs[n])) { assert OfKind(qs, key.kind, n); }
  }

  lemma {:induction false} LaidRows(qs: seq<Query>, part: Query -> seq<TrendRow>, r: TrendRow)
    ensures r in Laid(qs, part) <==> exists i :: 0 <= i < |qs| && r in part(qs[i])
  {
    if qs != [] {
      var n := |qs| - 1;
      LaidRows(qs[..n], part, r);
      if i :| 0 <= i < |qs[..n]| && r in part(qs[..n][i]) { assert r in part(qs[i]); }
      if i :| 0 <= i < |qs| && r in part(qs[i]) {
        if i < n { assert r in part(qs[..n][i]); }
      }
    }
  }

  lemma PartsAreOwn(events: seq<Event>, table: Table, qs: seq<Query>, q: Query)
    requires qs != []
    ensures OwnRows(CrossedPart(events, qs)(q), q.kind) && OwnRows(UnitedPart(table)(q), q.kind)
  {
    hide Listed, RawVal, RollupValue, ScannedCells, MainCells, RollupCells, TopVals;
  }

  /** The kind has a selected event with the value. */
  ghost predicate Occurs(events: seq<Event>, q: Query, v: string) {
    exists t :: (t, v) in RawCells(events, q)
  }

  lemma AbsentIsZero(events: seq<Event>, q: Query, v: string, t: int)
    requires !Occurs(events, q, v)
    ensures RawVal(events, q)(t, v) == 0.0
  {
    hide RawVal, RawCells;
    EmptyOutside(events, q, (t, v));
  }

  lemma OccurringTotal(events: seq<Event>, q: Query, v: string)
    requires q.breakdown.Some? && Occurs(events, q, v)
    ensures Total(RawRows(events, q), SeriesKey(q.kind, v)) > 0.0
  {
    hide RawVal, RawCells, RawRows, CellRows, Total;
    var t :| (t, v) in RawCells(events, q);
    var list := RawList(events, q);
    RawRowsAre(events, q);
    forall c: (int, string) | c in list ensures RawVal(events, q)(c.0, c.1) >= 0.0 { RawValPositive(events, q, c); }
    RawValPositive(events, q, (t, v));
    TotalAtLeast(list, q.kind, RawVal(events, q), v, t);
  }

  lemma RawKeyOccurs(events: seq<Event>, q: Query, v: string)
    requires q.breakdown.Some?
    ensures SeriesKey(q.kind, v) in EntriesOf(RawRows(events, q)) <==> Occurs(events, q, v)
  {
    hide RawVal, RawCells, RawRows, EntriesOf, CellRows;
    RawRowsAre(events, q);
    CellEntries(RawList(events, q), q.kind, RawVal(events, q), v);
  }

  lemma SelectedOccurs(events: seq<Event>, q: Query, e: Event)
    requires e in events && RawSelects(q, e)
    ensures Occurs(events, q, CellOf(q, e).1)
  {
    hide RawSelects;
    var (t, v) := CellOf(q, e);
    assert CellOf(q, e) in RawCells(events, q);
    assert (t, v) in RawCells(events, q);
  }

  // ----- the ranking of a kind over all its queries

  function RawAt(events: seq<Event>, v: string, t: int): Query -> real { q => RawVal(events, q)(t, v) }

  ghost function RawTotal(events: seq<Event>, v: string): Query -> real {
    q => Total(RawRows(events, q), SeriesKey(q.kind, v))
  }

  ghost function CombinedTotal(events: seq<Event>, qs: seq<Query>, kind: string, v: string): real {
    KindSum(qs, kind, RawTotal(events, v))
  }

  ghost function CombinedValues(events: seq<Event>, qs: seq<Query>, kind: string): set<string> {
    if qs == [] then {}
    else
      var q := qs[|qs| - 1];
      CombinedValues(events, qs[..|qs| - 1], kind) + if q.kind == kind then Values(RawRows(events, q)) else {}
  }

  ghost predicate CombinedAhead(events: seq<Event>, qs: seq<Query>, kind: string, w: string, v: string) {
    var tw, tv := CombinedTotal(events, qs, kind, w), CombinedTotal(events, qs, kind, v);
    tw > tv || (tw == tv && Before(w, v))
  }

  /** What a ranking of the kind by its added-up totals names. */
  ghost function CombinedTop(events: seq<Event>, qs: seq<Query>, kind: string): set<string>
    requires qs != []
  {
    Best(events, qs, kind, CombinedValues(events, qs, kind))
  }

  ghost function Best(events: seq<Event>, qs: seq<Query>, kind: string, vals: set<string>): set<string>
    requires qs != []
  {
    set v | v in vals && |set w | w in vals && CombinedAhead(events, qs, kind, w, v)| < TopLimit(qs[0])
  }

  lemma ValuesOccur(events: seq<Event>, q: Query, v: string)
    requires q.breakdown.Some?
    ensures v in Values(RawRows(events, q)) <==> Occurs(events, q, v)
  {
    hide RawRows, RawCells, EntriesOf, Values;
    RawEntry(events, q, v);
    RawKeyOccurs(events, q, v);
  }

  lemma {:induction false} CombinedHas(events: seq<Event>, qs: seq<Query>, kind: string, v: string)
    requires forall i :: 0 <= i < |qs| ==> qs[i].breakdown.Some?
    ensures v in CombinedValues(events, qs, kind) <==> exists i :: OfKind(qs, kind, i) && Occurs(events, qs[i], v)
  {
    hide RawRows, Values, Occurs;
    if qs != [] {
      var n := |qs| - 1;
      CombinedHas(events, qs[..n], kind, v);
      ValuesOccur(events, qs[n], v);
      if i :| OfKind(qs[..n], kind, i) && Occurs(events, qs[..n][i], v) { assert OfKind(qs, kind, i); }
      if i :| OfKind(qs, kind, i) && Occurs(events, qs[i], v) {
        if i < n { assert OfKind(qs[..n], kind, i) && Occurs(events, qs[..n][i], v); }
      }
      if qs[n].kind == kind { assert OfKind(qs, kind, n); }
    }
  }

  lemma AbsentTotal(events: seq<Event>, q: Query, v: string)
    requires q.breakdown.Some?
    ensures Total(RawRows(events, q), SeriesKey(q.kind, v)) >= 0.0
    ensures !Occurs(events, q, v) ==> Total(RawRows(events, q), SeriesKey(q.kind, v)) == 0.0
  {
    hide RawRows, EntriesOf, Occurs, Total;
    if Occurs(events, q, v) { OccurringTotal(events, q, v); }
    RawKeyOccurs(events, q, v);
    EntryTotal(RawRows(events, q), SeriesKey(q.kind, v));
  }

  /** A value some query of the kind has counts for something, any other for nothing. */
  lemma CombinedSign(events: seq<Event>, qs: seq<Query>, kind: string, v: string)
    requires forall i :: 0 <= i < |qs| ==> qs[i].breakdown.Some?
    ensures CombinedTotal(events, qs, kind, v) > 0.0 <==> v in CombinedValues(events, qs, kind)
    ensures CombinedTotal(events, qs, kind, v) >= 0.0
  {
    hide RawRows, Occurs, Total;
    CombinedHas(events, qs, kind, v);
    NothingSums(qs, kind);
    forall i | OfKind(qs, kind, i) ensures RawTotal(events, v)(qs[i]) >= 0.0 { AbsentTotal(events, qs[i], v); }
    KindSumBelow(qs, kind, Nothing(), RawTotal(events, v));
    if i :| OfKind(qs, kind, i) && Occurs(events, qs[i], v) {
      OccurringTotal(events, qs[i], v);
      assert Nothing()(qs[i]) < RawTotal(events, v)(qs[i]);
    } else {
      forall i | OfKind(qs, kind, i) ensures RawTotal(events, v)(qs[i]) == Nothing()(qs[i]) {
        AbsentTotal(events, qs[i], v);
      }
      KindSumAgrees(qs, kind, RawTotal(events, v), Nothing());
    }
  }

  // ----- the crossed rows

  ghost predicate NoLiteralScanned(events: seq<Event>, qs: seq<Query>)
    requires qs != []
  {
    forall e :: e in events && Scans(qs, e) ==> DimValue(e, DimOf(qs[0])) != OTHERS
  }

  lemma NoLiteralOfKind(events: seq<Event>, qs: seq<Query>, i: nat)
    requires OneRequest(qs) && i < |qs| && NoLiteralScanned(events, qs)
    ensures NoLiteralValue(events, qs[i])
    ensures forall t :: (t, OTHERS) !in ScannedCells(events, qs)
  {
    hide DimValue, Cookieless, Bucket;
    forall e | e in events && RawSelects(qs[i], e) ensures DimValue(e, DimOf(qs[i])) != OTHERS {
      assert Scans(qs, e);
    }
  }

  lemma PaddedArity(events: seq<Event>, q: Query, cells: set<(int, string)>)
    ensures UniformArity(PaddedRows(events, q, cells), Arity(q))
  {
    hide RawVal, Listed;
  }

  lemma LaidArity(rows: seq<TrendRow>, qs: seq<Query>, part: Query -> seq<TrendRow>, arity: nat)
    requires multiset(rows) == multiset(Laid(qs, part))
    requires forall i :: 0 <= i < |qs| ==> UniformArity(part(qs[i]), arity)
    ensures UniformArity(rows, arity)
  {
    SameElements(rows, Laid(qs, part));
    forall j | 0 <= j < |rows| ensures |rows[j].breakdowns| == arity {
      assert rows[j] in rows;
      LaidRows(qs, part, rows[j]);
      var i :| 0 <= i < |qs| && rows[j] in part(qs[i]);
      assert UniformArity(part(qs[i]), arity);
    }
  }

  /** What the crossed rows hold of a kind and value. */
  lemma CrossedKey(rows: seq<TrendRow>, events: seq<Event>, qs: seq<Query>, kind: string, v: string, t: int)
    requires OneRequest(qs) && CrossJoined(rows, events, qs) && qs[0].breakdown.Some?
    ensures var key := SeriesKey(kind, v);
      && KeyAt(rows, key, t) == KindSum(qs, kind, RawAt(events, v, t))
      && Total(rows, key) == CombinedTotal(events, qs, kind, v)
      && (key in EntriesOf(rows) <==>
            (exists i :: OfKind(qs, kind, i)) && exists s :: (s, v) in ScannedCells(events, qs))
  {
    hide PaddedRows, EntriesOf, ScannedCells, RawCells, RawVal, RawRows, KeyAt, Total, KindSum;
    var key, part, cells := SeriesKey(kind, v), CrossedPart(events, qs), ScannedCells(events, qs);
    forall i | 0 <= i < |qs| ensures OwnRows(part(qs[i]), qs[i].kind) { PartsAreOwn(events, [], qs, qs[i]); }
    AnyOrder(rows, Laid(qs, part), key, t);
    LaidSums(qs, part, key, t);
    forall i | OfKind(qs, kind, i)
      ensures AtIn(part, key, t)(qs[i]) == RawAt(events, v, t)(qs[i])
      ensures TotalIn(part, key)(qs[i]) == RawTotal(events, v)(qs[i])
      ensures key in EntriesOf(part(qs[i])) <==> exists s :: (s, v) in cells
    {
      ScannedHasRaw(events, qs, i);
      PaddedKind(events, qs[i], cells, v, t);
    }
    KindSumAgrees(qs, kind, AtIn(part, key, t), RawAt(events, v, t));
    KindSumAgrees(qs, kind, TotalIn(part, key), RawTotal(events, v));
  }

  ghost function ScannedValues(events: seq<Event>, qs: seq<Query>): set<string>
    requires qs != []
  {
    set c | c in ScannedCells(events, qs) :: c.1
  }

  lemma ScannedHas(events: seq<Event>, qs: seq<Query>, v: string)
    requires qs != []
    ensures v in ScannedValues(events, qs) <==> exists s :: (s, v) in ScannedCells(events, qs)
  {
    hide ScannedCells;
    var cells := ScannedCells(events, qs);
    if v in ScannedValues(events, qs) {
      var c :| c in cells && c.1 == v;
      var t: int := c.0;
      assert (t, v) in cells;
    }
    if s :| (s, v) in cells {
      var c := (s, v);
      assert c in cells && c.1 == v;
      assert v in ScannedValues(events, qs);
    }
  }

  /** The crossed rows rank every scanned value of a kind, by its combined total. */
  lemma CrossedRank(rows: seq<TrendRow>, events: seq<Event>, qs: seq<Query>, i: nat, v: string)
    requires OneRequest(qs) && i < |qs| && CrossJoined(rows, events, qs) && qs[0].breakdown.Some?
    ensures var key := SeriesKey(qs[i].kind, v);
      key in EntriesOf(rows) && |Ahead(rows, key)| < TopLimit(qs[0]) <==>
      v in Best(events, qs, qs[i].kind, ScannedValues(events, qs))
  {
    hide ScannedCells, EntriesOf, CrossJoined, CombinedTotal, Total, ScannedValues;
    var kind, vals := qs[i].kind, ScannedValues(events, qs);
    var key := SeriesKey(kind, v);
    assert OfKind(qs, kind, i);
    forall w ensures SeriesKey(kind, w) in EntriesOf(rows) <==> w in vals {
      CrossedKey(rows, events, qs, kind, w, 0);
      ScannedHas(events, qs, w);
    }
    var better := set w | w in vals && CombinedAhead(events, qs, kind, w, v);
    if v in vals {
      forall k ensures k in Ahead(rows, key) <==> k.kind == kind && k.breakdown in better {
        if k.kind == kind && k.breakdown in vals {
          assert k == SeriesKey(kind, k.breakdown);
          CrossedBeats(rows, events, qs, kind, k.breakdown, v);
        }
      }
      assert Ahead(rows, key) == set w | w in better :: SeriesKey(kind, w);
      SizeOfKeys(better, kind);
    }
  }

  lemma CrossedBeats(rows: seq<TrendRow>, events: seq<Event>, qs: seq<Query>, kind: string, w: string, v: string)
    requires OneRequest(qs) && CrossJoined(rows, events, qs) && qs[0].breakdown.Some?
    requires SeriesKey(kind, v) in EntriesOf(rows) && SeriesKey(kind, w) in EntriesOf(rows)
    ensures Beats(EntriesOf(rows), SeriesKey(kind, w), SeriesKey(kind, v)) <==> CombinedAhead(events, qs, kind, w, v)
  {
    hide EntriesOf, CrossJoined, CombinedTotal, Total, ScannedCells, KeyAt;
    CrossedKey(rows, events, qs, kind, w, 0);
    CrossedKey(rows, events, qs, kind, v, 0);
    EntryTotal(rows, SeriesKey(kind, w));
    EntryTotal(rows, SeriesKey(kind, v));
  }

  /** Values that count for nothing are not ahead of one that counts. */
  lemma SameBest(events: seq<Event>, qs: seq<Query>, kind: string, v: string)
    requires OneRequest(qs) && qs[0].breakdown.Some? && v in CombinedValues(events, qs, kind)
    ensures v in Best(events, qs, kind, ScannedValues(events, qs)) <==> v in CombinedTop(events, qs, kind)
  {
    hide ScannedValues, CombinedValues, CombinedTotal;
    forall w | w in CombinedValues(events, qs, kind) ensures w in ScannedValues(events, qs) {
      CombinedIsScanned(events, qs, kind, w);
    }
    forall w ensures CombinedAhead(events, qs, kind, w, v) ==> w in CombinedValues(events, qs, kind) {
      CombinedSign(events, qs, kind, w);
      CombinedSign(events, qs, kind, v);
    }
    assert (set w | w in ScannedValues(events, qs) && CombinedAhead(events, qs, kind, w, v)) ==
      set w | w in CombinedValues(events, qs, kind) && CombinedAhead(events, qs, kind, w, v);
  }

  lemma CombinedIsScanned(events: seq<Event>, qs: seq<Query>, kind: string, w: string)
    requires OneRequest(qs) && qs[0].breakdown.Some? && w in CombinedValues(events, qs, kind)
    ensures w in ScannedValues(events, qs)
  {
    hide ScannedCells, RawCells, CombinedValues;
    CombinedHas(events, qs, kind, w);
    var i :| OfKind(qs, kind, i) && Occurs(events, qs[i], w);
    var t :| (t, w) in RawCells(events, qs[i]);
    ScannedHasRaw(events, qs, i);
    ScannedHas(events, qs, w);
  }

  lemma CrossedIsPlain(rows: seq<TrendRow>, events: seq<Event>, qs: seq<Query>)
    requires OneRequest(qs) && CrossJoined(rows, events, qs)
    ensures UniformArity(rows, Arity(qs[0]))
    ensures qs[0].breakdown.Some? && NoLiteralScanned(events, qs) ==> NoLiteralOthers(rows, 1)
  {
    hide PaddedRows, ScannedCells, EntriesOf, NoLiteralScanned, UniformArity, OthersKey, CombinedTotal, KindSum, Laid;
    var part := CrossedPart(events, qs);
    forall i | 0 <= i < |qs| ensures UniformArity(part(qs[i]), Arity(qs[0])) {
      PaddedArity(events, qs[i], ScannedCells(events, qs));
    }
    LaidArity(rows, qs, part, Arity(qs[0]));
    if qs[0].breakdown.Some? && NoLiteralScanned(events, qs) {
      forall kind ensures OthersKey(kind, 1) !in EntriesOf(rows) {
        OthersKeyIs(kind);
        CrossedKey(rows, events, qs, kind, OTHERS, 0);
        NoLiteralOfKind(events, qs, 0);
      }
    }
  }

  /** The raw answer for a kind: the values named by the combined ranking show the sums of the queries' values. */
  lemma CrossedValue(rows: seq<TrendRow>, events: seq<Event>, qs: seq<Query>, i: nat, v: string, t: int)
    requires OneRequest(qs) && i < |qs| && CrossJoined(rows, events, qs)
    requires qs[0].breakdown.Some? && NoLiteralScanned(events, qs)
    ensures var out, kind := Group(rows, 1, TopLimit(qs[0])), qs[i].kind;
      && out.Grouped?
      && (v != OTHERS ==>
            ValueOf(out.series, kind, [v], t) ==
            if v in CombinedTop(events, qs, kind) then KindSum(qs, kind, RawAt(events, v, t)) else 0.0)
      && (v != OTHERS ==>
            (Shown(out.series, kind, [v]) <==> v in Best(events, qs, kind, ScannedValues(events, qs))))
      && ValueOf(out.series, kind, [OTHERS], t) ==
         KindAt(EntriesOf(rows), FoldedKeys(rows, TopLimit(qs[0]), kind), kind, t)
      && (Shown(out.series, kind, [OTHERS]) <==> |ScannedValues(events, qs)| > TopLimit(qs[0]))
  {
    hide ScannedCells, EntriesOf, NoLiteralScanned, UniformArity, OthersKey, Ahead, Group, KeyAt, CrossJoined,
      ScannedValues, CombinedValues, RawAt, CombinedTotal, CombinedTop, KindSum, ValueOf, Shown, NoLiteralOthers,
      KindAt, FoldedKeys, RankedKeys, Best;
    var kind, key := qs[i].kind, SeriesKey(qs[i].kind, v);
    CrossedIsPlain(rows, events, qs);
    FoldedValue(rows, TopLimit(qs[0]), kind, v, t);
    CrossedKey(rows, events, qs, kind, v, t);
    CrossedRank(rows, events, qs, i, v);
    RankedCount(rows, events, qs, i);
    if v in CombinedValues(events, qs, kind) {
      SameBest(events, qs, kind, v);
    } else {
      AbsentSum(events, qs, kind, v, t);
      TopCombined(events, qs, kind, v);
    }
  }

  lemma TopCombined(events: seq<Event>, qs: seq<Query>, kind: string, v: string)
    requires qs != []
    ensures v in CombinedTop(events, qs, kind) ==> v in CombinedValues(events, qs, kind)
  {
  }

  lemma AbsentSum(events: seq<Event>, qs: seq<Query>, kind: string, v: string, t: int)
    requires (forall i :: 0 <= i < |qs| ==> qs[i].breakdown.Some?) && v !in CombinedValues(events, qs, kind)
    ensures KindSum(qs, kind, RawAt(events, v, t)) == 0.0
  {
    hide RawVal, Occurs, CombinedValues;
    CombinedHas(events, qs, kind, v);
    forall i | OfKind(qs, kind, i) ensures RawAt(events, v, t)(qs[i]) == Nothing()(qs[i]) {
      AbsentIsZero(events, qs[i], v, t);
    }
    KindSumAgrees(qs, kind, RawAt(events, v, t), Nothing());
    NothingSums(qs, kind);
  }

  lemma RankedCount(rows: seq<TrendRow>, events: seq<Event>, qs: seq<Query>, i: nat)
    requires OneRequest(qs) && i < |qs| && CrossJoined(rows, events, qs) && qs[0].breakdown.Some?
    ensures |RankedKeys(rows, qs[i].kind)| == |ScannedValues(events, qs)|
  {
    hide ScannedCells, EntriesOf, CrossJoined, ScannedValues, RankedKeys, CombinedTotal, KindSum;
    var kind, ranked, vals := qs[i].kind, RankedKeys(rows, qs[i].kind), ScannedValues(events, qs);
    RankedPlaces(rows, 0, kind, "");
    assert OfKind(qs, kind, i);
    forall k ensures k in ranked <==> k.kind == kind && k.breakdown in vals {
      CrossedKey(rows, events, qs, kind, k.breakdown, 0);
      ScannedHas(events, qs, k.breakdown);
    }
    SizeOfDistinct(ranked);
    SizeOfKeys(vals, kind);
    assert (set k | k in ranked) == set v | v in vals :: SeriesKey(kind, v);
  }

  // ----- the rollup rows of a kind

  lemma MainNamed(ops: seq<Op>, q: Query, now: int, v: string, t: int)
    requires Served(ops, q, now) && q.breakdown.Some? && v != OTHERS
    ensures KeyAt(MainRows(Stored(ops), q), SeriesKey(q.kind, v), t) ==
      if v in RawTop(Inserted(ops), q) then RawVal(Inserted(ops), q)(t, v) else 0.0
  {
    var events, table, top := Inserted(ops), Stored(ops), RawTop(Inserted(ops), q);
    var list := MainList(table, q, top);
    hide RawCells, MainCells, RawTop, EntriesOf, CellRows, At, KeyAt, MainRows, Inserted, Stored, RollupValue,
      RawValue, Served;
    EntryAt(MainRows(table, q), SeriesKey(q.kind, v), t);
    MainRowsAre(ops, q, now);
    CellEntries(list, q.kind, MainVal(table, q, top), v);
    MainCellsAre(ops, q, now, top, t, v);
    if v in top { NamedValue(ops, q, now, top, t, v); }
    if (t, v) !in RawCells(events, q) { EmptyOutside(events, q, (t, v)); }
  }

  lemma MainOthers(ops: seq<Op>, q: Query, now: int, t: int)
    requires Served(ops, q, now) && q.breakdown.Some? && NoLiteralValue(Inserted(ops), q)
    ensures KeyAt(MainRows(Stored(ops), q), SeriesKey(q.kind, OTHERS), t) ==
      RawValue(Inserted(ops), q, Among(t, Values(RawRows(Inserted(ops), q)) - RawTop(Inserted(ops), q)))
  {
    hide RawTop, EntriesOf, At, KeyAt, MainRows, RawRows, Values, Inserted, Stored, Served, NoLiteralValue, RawValue;
    var events := Inserted(ops);
    EntryAt(MainRows(Stored(ops), q), SeriesKey(q.kind, OTHERS), t);
    OthersPresent(ops, q, now);
    OthersAt(ops, q, now, t);
    EmptyCell(events, q, Among(t, {}));
  }

  // ----- the united and filled rows

  ghost function NamedAt(events: seq<Event>, v: string, t: int): Query -> real {
    q => if v in RawTop(events, q) then RawVal(events, q)(t, v) else 0.0
  }

  /** The values the query counts but does not name. */
  ghost function LeftOut(events: seq<Event>, q: Query): set<string> { Values(RawRows(events, q)) - RawTop(events, q) }

  ghost function LeftAt(events: seq<Event>, t: int): Query -> real {
    q => RawValue(events, q, Among(t, LeftOut(events, q)))
  }

  ghost predicate Labels(events: seq<Event>, q: Query, v: string) {
    if v == OTHERS then LeftOut(events, q) != {} else v in RawTop(events, q)
  }

  lemma KindHolds(ops: seq<Op>, q: Query, now: int, v: string, t: int)
    requires Served(ops, q, now) && q.breakdown.Some? && NoLiteralValue(Inserted(ops), q)
    ensures var rows, key, events := KindRows(Stored(ops), q), SeriesKey(q.kind, v), Inserted(ops);
      && KeyAt(rows, key, t) == (if v == OTHERS then LeftAt(events, t)(q) else NamedAt(events, v, t)(q))
      && (key in EntriesOf(rows) <==> Labels(events, q, v))
  {
    hide RawTop, RawVal, EntriesOf, MainRows, RawRows, Values, Inserted, Stored, Served, NoLiteralValue, RawValue,
      KeyAt;
    if v == OTHERS {
      MainOthers(ops, q, now, t);
      OthersPresent(ops, q, now);
    } else {
      MainNamed(ops, q, now, v, t);
      NamedSeries(ops, q, now, v);
    }
  }

  lemma UnitedKey(rows: seq<TrendRow>, ops: seq<Op>, qs: seq<Query>, now: int, kind: string, v: string, t: int)
    requires OneRequest(qs) && Served(ops, qs[0], now) && qs[0].breakdown.Some? && United(rows, Stored(ops), qs)
    requires NoLiteralScanned(Inserted(ops), qs)
    ensures var key, events := SeriesKey(kind, v), Inserted(ops);
      && KeyAt(rows, key, t) == KindSum(qs, kind, if v == OTHERS then LeftAt(events, t) else NamedAt(events, v, t))
      && (key in EntriesOf(rows) <==> exists i :: OfKind(qs, kind, i) && Labels(events, qs[i], v))
  {
    hide EntriesOf, KindRows, Laid, KeyAt, Total, KindSum, Inserted, Stored, NoLiteralScanned, RollupWindowAligned,
      Labels,
      LeftOut, RawTop, RawVal, RawValue, Ahead;
    var key, events, part := SeriesKey(kind, v), Inserted(ops), UnitedPart(Stored(ops));
    var f := if v == OTHERS then LeftAt(events, t) else NamedAt(events, v, t);
    forall i | 0 <= i < |qs| ensures OwnRows(part(qs[i]), qs[i].kind) { PartsAreOwn([], Stored(ops), qs, qs[i]); }
    AnyOrder(rows, Laid(qs, part), key, t);
    LaidSums(qs, part, key, t);
    forall i | OfKind(qs, kind, i)
      ensures AtIn(part, key, t)(qs[i]) == f(qs[i])
      ensures key in EntriesOf(part(qs[i])) <==> Labels(events, qs[i], v)
    {
      NoLiteralOfKind(events, qs, i);
      assert Served(ops, qs[i], now);
      KindHolds(ops, qs[i], now, v, t);
    }
    KindSumAgrees(qs, kind, AtIn(part, key, t), f);
  }

  lemma {:induction false} ZerosAddNothing(rows: seq<TrendRow>, zeros: seq<TrendRow>, key: SeriesKey, t: int)
    requires forall i :: 0 <= i < |zeros| ==> zeros[i].value == 0.0
    ensures KeyAt(rows + zeros, key, t) == KeyAt(rows, key, t)
  {
    if zeros == [] {
      assert rows + zeros == rows;
    } else {
      var n := |zeros| - 1;
      ZerosAddNothing(rows, zeros[..n], key, t);
      assert (rows + zeros)[..|rows + zeros| - 1] == rows + zeros[..n];
      assert (rows + zeros)[|rows + zeros| - 1] == zeros[n];
    }
  }

  lemma FilledIsPlain(rows: seq<TrendRow>, kinds: seq<string>, filled: seq<TrendRow>, arity: nat, key: SeriesKey,
                      t: int)
    requires ZeroFill.Filled(rows, kinds, filled) && UniformArity(rows, arity)
    ensures UniformArity(filled, arity) && KeyAt(filled, key, t) == KeyAt(rows, key, t)
  {
    assert rows + filled[|rows|..] == filled;
    forall i | 0 <= i < |filled| ensures |filled[i].breakdowns| == arity {
      if i < |rows| { assert filled[i] == rows[i]; } else { assert ZeroFill.IsFill(rows, kinds, filled[i]); }
    }
    ZerosAddNothing(rows, filled[|rows|..], key, t);
  }

  /** Filling adds series, but changes no value that is shown. */
  lemma FillKeepsValues(rows: seq<TrendRow>, kinds: seq<string>, filled: seq<TrendRow>, arity: nat, kind: string,
                        b: string, t: int)
    requires ZeroFill.Filled(rows, kinds, filled) && UniformArity(rows, arity) && arity <= 1 && (arity == 0 ==> b == "")
    ensures Group(rows, arity, 0).Grouped? && Group(filled, arity, 0).Grouped?
    ensures var before, after, tuple := Group(rows, arity, 0).series, Group(filled, arity, 0).series, Tuple(arity, b);
      && ValueOf(after, kind, tuple, t) == ValueOf(before, kind, tuple, t)
      && (Shown(before, kind, tuple) ==> Shown(after, kind, tuple))
  {
    hide Group, ValueOf, KeyAt, EntriesOf, Shown, UniformArity;
    FilledIsPlain(rows, kinds, filled, arity, SeriesKey(kind, b), t);
    UnfoldedValue(rows, arity, 0, kind, b, t);
    UnfoldedValue(filled, arity, 0, kind, b, t);
    ZeroFill.FillKeepsTotals(rows, kinds, filled, SeriesKey(kind, b));
  }

  lemma UnitedArity(rows: seq<TrendRow>, table: Table, qs: seq<Query>)
    requires OneRequest(qs) && United(rows, table, qs)
    ensures UniformArity(rows, Arity(qs[0]))
  {
    hide Listed, MainCells, RollupCells, RollupValue, TopVals, Laid;
    LaidArity(rows, qs, UnitedPart(table), Arity(qs[0]));
  }

  /** The rollup answer for a kind: each query's named values show, added up. */
  lemma UnitedValue(rows: seq<TrendRow>, filled: seq<TrendRow>, ops: seq<Op>, qs: seq<Query>, now: int, kind: string,
                    v: string, t: int)
    requires OneRequest(qs) && Served(ops, qs[0], now) && qs[0].breakdown.Some? && United(rows, Stored(ops), qs)
    requires NoLiteralScanned(Inserted(ops), qs) && ZeroFill.Filled(rows, KindsIn(qs), filled)
    ensures var out, events := Group(filled, 1, 0), Inserted(ops);
      && out.Grouped?
      && ValueOf(out.series, kind, [v], t) ==
         KindSum(qs, kind, if v == OTHERS then LeftAt(events, t) else NamedAt(events, v, t))
  {
    hide Group, UniformArity, KeyAt, ValueOf, EntriesOf, Shown, United, KindSum, Served, Inserted, Stored,
      NoLiteralScanned, LeftAt, NamedAt, Labels;
    UnitedArity(rows, Stored(ops), qs);
    FilledIsPlain(rows, KindsIn(qs), filled, 1, SeriesKey(kind, v), t);
    UnfoldedValue(filled, 1, 0, kind, v, t);
    UnitedKey(rows, ops, qs, now, kind, v, t);
  }

  // ----- when the rankings agree

  /** The query names exactly those of its values that the combined ranking of its kind names. */
  ghost predicate TopAgrees(events: seq<Event>, qs: seq<Query>, q: Query)
    requires qs != []
  {
    RawTop(events, q) == CombinedTop(events, qs, q.kind) * Values(RawRows(events, q))
  }

  ghost predicate TopsAgree(events: seq<Event>, qs: seq<Query>, kind: string)
    requires qs != []
  {
    forall i :: OfKind(qs, kind, i) ==> TopAgrees(events, qs, qs[i])
  }

  lemma OnceValues(events: seq<Event>, qs: seq<Query>, i: nat)
    requires OneRequest(qs) && Once(qs, i) && qs[0].breakdown.Some?
    ensures CombinedValues(events, qs, qs[i].kind) == Values(RawRows(events, qs[i]))
  {
    hide RawRows, Values, Occurs, CombinedValues;
    forall v ensures v in CombinedValues(events, qs, qs[i].kind) <==> v in Values(RawRows(events, qs[i])) {
      CombinedHas(events, qs, qs[i].kind, v);
      ValuesOccur(events, qs[i], v);
      assert OfKind(qs, qs[i].kind, i);
    }
  }

  /** A kind asked for once has one ranking. */
  lemma OnceAgrees(events: seq<Event>, qs: seq<Query>, i: nat)
    requires OneRequest(qs) && Once(qs, i) && qs[0].breakdown.Some?
    ensures TopsAgree(events, qs, qs[i].kind)
  {
    hide RawRows, Values, CombinedValues, Total, KindSum;
    var q := qs[i];
    OnceValues(events, qs, i);
    forall w, v ensures CombinedAhead(events, qs, q.kind, w, v) <==> Outranks(RawRows(events, q), q.kind, w, v) {
      OnceSum(qs, i, RawTotal(events, w));
      OnceSum(qs, i, RawTotal(events, v));
    }
    forall v ensures v in CombinedTop(events, qs, q.kind) <==> v in RawTop(events, q) {
      assert (set w | w in Values(RawRows(events, q)) && CombinedAhead(events, qs, q.kind, w, v)) ==
        set w | w in Values(RawRows(events, q)) && Outranks(RawRows(events, q), q.kind, w, v);
    }
    assert RawTop(events, q) <= Values(RawRows(events, q));
  }

  /** Where the rankings agree, the queries' named values add up to what the combined ranking names. */
  lemma AgreeingSum(events: seq<Event>, qs: seq<Query>, kind: string, v: string, t: int)
    requires OneRequest(qs) && qs[0].breakdown.Some? && TopsAgree(events, qs, kind)
    ensures KindSum(qs, kind, NamedAt(events, v, t)) ==
      if v in CombinedTop(events, qs, kind) then KindSum(qs, kind, RawAt(events, v, t)) else 0.0
  {
    hide RawRows, Values, CombinedTop, RawVal, RawTop, Occurs;
    NothingSums(qs, kind);
    var named := v in CombinedTop(events, qs, kind);
    var f := if named then RawAt(events, v, t) else Nothing();
    forall i | OfKind(qs, kind, i) ensures NamedAt(events, v, t)(qs[i]) == f(qs[i]) {
      assert TopAgrees(events, qs, qs[i]);
      ValuesOccur(events, qs[i], v);
      if !Occurs(events, qs[i], v) { AbsentIsZero(events, qs[i], v, t); }
    }
    KindSumAgrees(qs, kind, NamedAt(events, v, t), f);
  }

  /** Where they do not, some value shows another number. */
  lemma DisagreeingSum(events: seq<Event>, qs: seq<Query>, i: nat) returns (v: string, t: int)
    requires OneRequest(qs) && i < |qs| && qs[0].breakdown.Some? && !TopAgrees(events, qs, qs[i])
    ensures v in Values(RawRows(events, qs[i]))
    ensures KindSum(qs, qs[i].kind, NamedAt(events, v, t)) !=
      if v in CombinedTop(events, qs, qs[i].kind) then KindSum(qs, qs[i].kind, RawAt(events, v, t)) else 0.0
  {
    hide RawRows, Values, CombinedTop, RawVal, RawCells, OneRequest;
    var q, kind := qs[i], qs[i].kind;
    assert q.breakdown.Some? by { SharedBreakdown(qs, i); }
    TopIsCounted(events, q);
    v :| v in Values(RawRows(events, q)) && (v in RawTop(events, q) <==> v !in CombinedTop(events, qs, kind));
    ValuesOccur(events, q, v);
    t :| (t, v) in RawCells(events, q);
    RawValPositive(events, q, (t, v));
    assert OfKind(qs, kind, i);
    forall j | OfKind(qs, kind, j)
      ensures 0.0 <= NamedAt(events, v, t)(qs[j]) <= RawAt(events, v, t)(qs[j])
    {
      RawValPositive(events, qs[j], (t, v));
    }
    KindSumBelow(qs, kind, NamedAt(events, v, t), RawAt(events, v, t));
    KindSumBelow(qs, kind, Nothing(), NamedAt(events, v, t));
    NothingSums(qs, kind);
    if v in RawTop(events, q) {
      assert Nothing()(qs[i]) < NamedAt(events, v, t)(qs[i]);
    } else {
      assert NamedAt(events, v, t)(qs[i]) < RawAt(events, v, t)(qs[i]);
    }
  }

  lemma SharedBreakdown(qs: seq<Query>, i: nat)
    requires OneRequest(qs) && i < |qs|
    ensures qs[i].breakdown == qs[0].breakdown && TopLimit(qs[i]) == TopLimit(qs[0])
  {
  }

  lemma TopIsCounted(events: seq<Event>, q: Query)
    ensures RawTop(events, q) <= Values(RawRows(events, q))
  {
    hide RawRows, Values;
  }

  // ----- `$others` where the rankings agree

  function FoldAt(events: seq<Event>, keys: seq<SeriesKey>, t: int): Query -> real { q => FoldVal(events, q, keys, t) }

  lemma FoldValStep(events: seq<Event>, q: Query, keys: seq<SeriesKey>, t: int)
    requires keys != []
    ensures FoldVal(events, q, keys, t) == RawVal(events, q)(t, keys[0].breakdown) + FoldVal(events, q, keys[1..], t)
  {
  }

  /** The sum of the folded series is the sum of what the queries have in them. */
  lemma {:induction false} FoldedByQuery(rows: seq<TrendRow>, events: seq<Event>, qs: seq<Query>, kind: string,
                                         keys: seq<SeriesKey>, t: int)
    requires OneRequest(qs) && CrossJoined(rows, events, qs) && qs[0].breakdown.Some?
    requires forall k :: k in keys ==> k.kind == kind && k in EntriesOf(rows)
    ensures KindAt(EntriesOf(rows), keys, kind, t) == KindSum(qs, kind, FoldAt(events, keys, t))
  {
    hide EntriesOf, CrossJoined, KeyAt, RawValue, At, CombinedTotal, Total, ScannedCells;
    if keys == [] {
      forall i | OfKind(qs, kind, i) ensures FoldAt(events, keys, t)(qs[i]) == Nothing()(qs[i]) {}
      KindSumAgrees(qs, kind, FoldAt(events, keys, t), Nothing());
      NothingSums(qs, kind);
    } else {
      var v, rest := keys[0].breakdown, keys[1..];
      FoldedByQuery(rows, events, qs, kind, rest, t);
      assert keys[0] in keys && keys[0] == SeriesKey(kind, v);
      CrossedKey(rows, events, qs, kind, v, t);
      EntryAt(rows, keys[0], t);
      forall i | OfKind(qs, kind, i)
        ensures FoldAt(events, keys, t)(qs[i]) == RawAt(events, v, t)(qs[i]) + FoldAt(events, rest, t)(qs[i])
      {
        FoldValStep(events, qs[i], keys, t);
      }
      KindSumAdds(qs, kind, RawAt(events, v, t), FoldAt(events, rest, t), FoldAt(events, keys, t));
    }
  }

  /** A value of a selected event is folded by the raw path exactly when the query leaves it out. */
  lemma FoldedAlike(rows: seq<TrendRow>, events: seq<Event>, qs: seq<Query>, i: nat, e: Event)
    requires OneRequest(qs) && i < |qs| && CrossJoined(rows, events, qs) && qs[0].breakdown.Some?
    requires TopAgrees(events, qs, qs[i]) && e in events && RawSelects(qs[i], e)
    ensures var q, v := qs[i], CellOf(qs[i], e).1;
      v in BreakdownsOf(FoldedKeys(rows, TopLimit(q), q.kind)) <==> v in LeftOut(events, q)
  {
    hide EntriesOf, Ahead, RawTop, FoldedKeys, RawRows, Values, RawSelects, CellOf, CrossJoined, CombinedTop, Best,
      ScannedValues, Occurs, CombinedValues;
    var q, kind, v := qs[i], qs[i].kind, CellOf(qs[i], e).1;
    SelectedOccurs(events, q, e);
    ValuesOccur(events, q, v);
    assert OfKind(qs, kind, i);
    CombinedHas(events, qs, kind, v);
    SameBest(events, qs, kind, v);
    CrossedRank(rows, events, qs, i, v);
    RankedPlaces(rows, TopLimit(q), kind, v);
    CrossedHas(rows, events, qs, i, v);
    FoldedKeysOf(rows, TopLimit(q), kind);
    BreakdownsHas(FoldedKeys(rows, TopLimit(q), kind), kind, v);
  }

  lemma CrossedHas(rows: seq<TrendRow>, events: seq<Event>, qs: seq<Query>, i: nat, v: string)
    requires OneRequest(qs) && i < |qs| && CrossJoined(rows, events, qs) && qs[0].breakdown.Some?
    requires v in CombinedValues(events, qs, qs[i].kind)
    ensures SeriesKey(qs[i].kind, v) in EntriesOf(rows)
  {
    hide EntriesOf, CrossJoined, CombinedValues, ScannedValues, CombinedTotal, KindSum, ScannedCells;
    assert OfKind(qs, qs[i].kind, i);
    CombinedIsScanned(events, qs, qs[i].kind, v);
    ScannedHas(events, qs, v);
    CrossedKey(rows, events, qs, qs[i].kind, v, 0);
  }

  lemma FoldedKeysOf(rows: seq<TrendRow>, n: nat, kind: string)
    ensures var rest := FoldedKeys(rows, n, kind);
      Distinct(rest) && forall k :: k in rest ==> k.kind == kind && k in EntriesOf(rows)
  {
    hide EntriesOf, RankedKeys;
    RankedPlaces(rows, n, kind, "");
  }

  lemma AmongAlike(t: int, a: set<string>, b: set<string>, c: (int, string))
    requires c.1 in a <==> c.1 in b
    ensures Among(t, a)(c.0, c.1) == Among(t, b)(c.0, c.1)
  {
  }

  /** What the raw path folds of one query, against what the rollup leaves out of it. */
  lemma QueryOthers(rows: seq<TrendRow>, events: seq<Event>, qs: seq<Query>, i: nat, t: int)
    requires OneRequest(qs) && i < |qs| && CrossJoined(rows, events, qs) && qs[0].breakdown.Some?
    requires TopAgrees(events, qs, qs[i])
    ensures var q := qs[i];
      var sum := FoldVal(events, q, FoldedKeys(rows, TopLimit(q), q.kind), t);
      && (q.metric.TotalCount? ==> sum == LeftAt(events, t)(q))
      && (q.metric.UniqueUsers? ==> sum >= LeftAt(events, t)(q))
  {
    hide EntriesOf, FoldedKeys, LeftOut, Among, RawSelects, CellOf, CrossJoined, TopAgrees, FoldVal;
    var q := qs[i];
    var rest := FoldedKeys(rows, TopLimit(q), q.kind);
    FoldedKeysOf(rows, TopLimit(q), q.kind);
    FoldValIs(events, q, rest, t);
    forall e | e in events && RawSelects(q, e)
      ensures Among(t, BreakdownsOf(rest))(CellOf(q, e).0, CellOf(q, e).1) ==
        Among(t, LeftOut(events, q))(CellOf(q, e).0, CellOf(q, e).1)
    {
      FoldedAlike(rows, events, qs, i, e);
      AmongAlike(t, BreakdownsOf(rest), LeftOut(events, q), CellOf(q, e));
    }
    SameOnEvents(events, q, Among(t, BreakdownsOf(rest)), Among(t, LeftOut(events, q)));
  }

  ghost predicate AllCount(qs: seq<Query>, kind: string) {
    forall i :: OfKind(qs, kind, i) ==> qs[i].metric.TotalCount?
  }

  ghost predicate NoneAverages(qs: seq<Query>, kind: string) {
    forall i :: OfKind(qs, kind, i) ==> !qs[i].metric.PerUserAvg?
  }

  lemma AgreeingOthers(rows: seq<TrendRow>, events: seq<Event>, qs: seq<Query>, kind: string, t: int)
    requires OneRequest(qs) && CrossJoined(rows, events, qs) && qs[0].breakdown.Some? && TopsAgree(events, qs, kind)
    ensures var raw := KindAt(EntriesOf(rows), FoldedKeys(rows, TopLimit(qs[0]), kind), kind, t);
      && (AllCount(qs, kind) ==> KindSum(qs, kind, LeftAt(events, t)) == raw)
      && (NoneAverages(qs, kind) ==> KindSum(qs, kind, LeftAt(events, t)) <= raw)
  {
    hide EntriesOf, FoldedKeys, CrossJoined, TopAgrees, FoldVal, KindSum, RawValue;
    var rest := FoldedKeys(rows, TopLimit(qs[0]), kind);
    FoldedKeysOf(rows, TopLimit(qs[0]), kind);
    FoldedByQuery(rows, events, qs, kind, rest, t);
    forall i | OfKind(qs, kind, i)
      ensures qs[i].metric.TotalCount? ==> LeftAt(events, t)(qs[i]) == FoldAt(events, rest, t)(qs[i])
      ensures !qs[i].metric.PerUserAvg? ==> LeftAt(events, t)(qs[i]) <= FoldAt(events, rest, t)(qs[i])
    {
      assert TopAgrees(events, qs, qs[i]);
      SharedBreakdown(qs, i);
      QueryOthers(rows, events, qs, i, t);
    }
    if AllCount(qs, kind) { KindSumAgrees(qs, kind, LeftAt(events, t), FoldAt(events, rest, t)); }
    if NoneAverages(qs, kind) { KindSumBelow(qs, kind, LeftAt(events, t), FoldAt(events, rest, t)); }
  }

  // ----- the theorems

  /** The named values of the kind are the same on both paths, where a series that is not shown counts as zero. */
  ghost predicate NamedAgree(raw: seq<Series>, rollup: seq<Series>, kind: string) {
    forall v, t :: v != OTHERS ==> ValueOf(rollup, kind, [v], t) == ValueOf(raw, kind, [v], t)
  }

  /** A request and its rows on both paths. */
  ghost predicate Answered(ops: seq<Op>, qs: seq<Query>, now: int, crossed: seq<TrendRow>, united: seq<TrendRow>,
                           filled: seq<TrendRow>) {
    && OneRequest(qs) && Served(ops, qs[0], now)
    && (qs[0].breakdown.Some? ==> NoLiteralScanned(Inserted(ops), qs))
    && CrossJoined(crossed, Inserted(ops), qs)
    && United(united, Stored(ops), qs) && ZeroFill.Filled(united, KindsIn(qs), filled)
  }

  /** For a kind that is asked for any number of times, the named values are the same on both paths if and only if each
      of its queries names exactly those of its values that the ranking by their combined totals names. */
  lemma NamedRefinesExactly(ops: seq<Op>, qs: seq<Query>, now: int, crossed: seq<TrendRow>, united: seq<TrendRow>,
                            filled: seq<TrendRow>, i: nat)
    requires Answered(ops, qs, now, crossed, united, filled) && i < |qs| && qs[0].breakdown.Some?
    ensures var raw, rollup := Group(crossed, 1, TopLimit(qs[0])), Group(filled, 1, 0);
      && raw.Grouped? && rollup.Grouped?
      && (NamedAgree(raw.series, rollup.series, qs[i].kind) <==> TopsAgree(Inserted(ops), qs, qs[i].kind))
  {
    hide Group, ValueOf, Inserted, Stored, NoLiteralScanned, CrossJoined, United, KindSum, CombinedTop, Best, Shown,
      KindAt, FoldedKeys, Values, EntriesOf, Served, TopAgrees, RawAt, NamedAt, LeftAt, ZeroFill.Filled, ScannedValues,
      RawRows, OneRequest, Ahead;
    var events, kind := Inserted(ops), qs[i].kind;
    CrossedValue(crossed, events, qs, i, OTHERS, 0);
    UnitedValue(united, filled, ops, qs, now, kind, OTHERS, 0);
    var raw, rollup := Group(crossed, 1, TopLimit(qs[0])).series, Group(filled, 1, 0).series;
    forall v, t | v != OTHERS
      ensures ValueOf(raw, kind, [v], t) ==
        if v in CombinedTop(events, qs, kind) then KindSum(qs, kind, RawAt(events, v, t)) else 0.0
      ensures ValueOf(rollup, kind, [v], t) == KindSum(qs, kind, NamedAt(events, v, t))
    {
      CrossedValue(crossed, events, qs, i, v, t);
      UnitedValue(united, filled, ops, qs, now, kind, v, t);
    }
    if TopsAgree(events, qs, kind) {
      forall v, t | v != OTHERS ensures ValueOf(rollup, kind, [v], t) == ValueOf(raw, kind, [v], t) {
        AgreeingSum(events, qs, kind, v, t);
      }
    } else {
      var j :| OfKind(qs, kind, j) && !TopAgrees(events, qs, qs[j]);
      var v, t := DisagreeingSum(events, qs, j);
      CountedIsPlain(events, qs, j, v);
      assert ValueOf(rollup, kind, [v], t) != ValueOf(raw, kind, [v], t);
    }
  }

  lemma CountedIsPlain(events: seq<Event>, qs: seq<Query>, i: nat, v: string)
    requires OneRequest(qs) && i < |qs| && qs[0].breakdown.Some? && NoLiteralScanned(events, qs)
    requires v in Values(RawRows(events, qs[i]))
    ensures v != OTHERS
  {
    hide RawRows, Values, RawCells, ScannedCells, NoLiteralScanned;
    SharedBreakdown(qs, i);
    ValuesOccur(events, qs[i], v);
    var t :| (t, v) in RawCells(events, qs[i]);
    ScannedHasRaw(events, qs, i);
    NoLiteralOfKind(events, qs, i);
  }

  /** Where the rankings agree, `$others` is the same for event counts, and for unique users at most the raw one. */
  lemma OthersRefine(ops: seq<Op>, qs: seq<Query>, now: int, crossed: seq<TrendRow>, united: seq<TrendRow>,
                     filled: seq<TrendRow>, i: nat, t: int)
    requires Answered(ops, qs, now, crossed, united, filled) && i < |qs| && qs[0].breakdown.Some?
    requires TopsAgree(Inserted(ops), qs, qs[i].kind)
    ensures var raw, rollup := Group(crossed, 1, TopLimit(qs[0])), Group(filled, 1, 0);
      && raw.Grouped? && rollup.Grouped?
      && (AllCount(qs, qs[i].kind) ==>
            ValueOf(rollup.series, qs[i].kind, [OTHERS], t) == ValueOf(raw.series, qs[i].kind, [OTHERS], t))
      && (NoneAverages(qs, qs[i].kind) ==>
            ValueOf(rollup.series, qs[i].kind, [OTHERS], t) <= ValueOf(raw.series, qs[i].kind, [OTHERS], t))
  {
    hide Group, ValueOf, Inserted, Stored, NoLiteralScanned, CrossJoined, United, KindSum, CombinedTop, Best, Shown,
      KindAt, FoldedKeys, Values, EntriesOf, Served, TopsAgree, RawAt, NamedAt, LeftAt, ZeroFill.Filled, ScannedValues,
      RawRows, OneRequest, Ahead, AllCount, NoneAverages;
    CrossedValue(crossed, Inserted(ops), qs, i, OTHERS, t);
    UnitedValue(united, filled, ops, qs, now, qs[i].kind, OTHERS, t);
    AgreeingOthers(crossed, Inserted(ops), qs, qs[i].kind, t);
  }

  /** With a breakdown, for every kind that is asked for once, whatever else the request holds: each named value shows
      the same number at each instant on both paths, and `$others` relates as for one kind. */
  lemma MultiRefinesRaw(ops: seq<Op>, qs: seq<Query>, now: int, crossed: seq<TrendRow>, united: seq<TrendRow>,
                        filled: seq<TrendRow>, i: nat, v: string, t: int)
    requires Answered(ops, qs, now, crossed, united, filled) && Once(qs, i) && qs[0].breakdown.Some?
    ensures var raw, rollup, kind := Group(crossed, 1, TopLimit(qs[0])), Group(filled, 1, 0), qs[i].kind;
      && raw.Grouped? && rollup.Grouped?
      && (v != OTHERS ==> ValueOf(rollup.series, kind, [v], t) == ValueOf(raw.series, kind, [v], t))
      && (qs[i].metric.TotalCount? ==>
            ValueOf(rollup.series, kind, [OTHERS], t) == ValueOf(raw.series, kind, [OTHERS], t))
      && (qs[i].metric.UniqueUsers? ==>
            ValueOf(rollup.series, kind, [OTHERS], t) <= ValueOf(raw.series, kind, [OTHERS], t))
  {
    hide Group, ValueOf, Inserted, Stored, NoLiteralScanned, CrossJoined, United, Served, TopsAgree, ZeroFill.Filled;
    OnceAgrees(Inserted(ops), qs, i);
    NamedRefinesExactly(ops, qs, now, crossed, united, filled, i);
    OthersRefine(ops, qs, now, crossed, united, filled, i, t);
  }

  // ----- without a breakdown

  lemma {:induction false} UnlabelledAt(list: seq<(int, string)>, kind: string, val: (int, string) -> real, t: int)
    requires Distinct(list) && forall c :: c in list ==> c.1 == ""
    ensures KeyAt(CellRows(list, kind, false, val), SeriesKey(kind, ""), t) ==
      if (t, "") in list then val(t, "") else 0.0
  {
    if list != [] {
      var n := |list| - 1;
      var rows := CellRows(list, kind, false, val);
      UnlabelledAt(list[..n], kind, val, t);
      assert rows[..n] == CellRows(list[..n], kind, false, val);
      assert list == list[..n] + [list[n]] && list[n] == (list[n].0, "");
    }
  }

  lemma NoLabels(events: seq<Event>, qs: seq<Query>)
    requires OneRequest(qs) && qs[0].breakdown.None?
    ensures forall c :: c in ScannedCells(events, qs) ==> c.1 == ""
  {
  }

  lemma UnlabelledRows(events: seq<Event>, q: Query, cells: set<(int, string)>, t: int)
    requires q.breakdown.None? && RawCells(events, q) <= cells && forall c :: c in cells ==> c.1 == ""
    ensures KeyAt(PaddedRows(events, q, cells), SeriesKey(q.kind, ""), t) == RawVal(events, q)(t, "")
  {
    hide RawCells, RawVal, KeyAt;
    UnlabelledAt(Listed(cells), q.kind, RawVal(events, q), t);
    if (t, "") !in cells { EmptyOutside(events, q, (t, "")); }
  }

  lemma UnlabelledGrain(ops: seq<Op>, q: Query, now: int)
    requires Served(ops, q, now) && q.breakdown.None?
    ensures GrainRows(Stored(ops), q) == PaddedRows(Inserted(ops), q, RawCells(Inserted(ops), q))
  {
    hide RawValue, Listed, GrainRows, RollupWindowAligned;
    var events := Inserted(ops);
    SameRows(ops, q, now);
    CellRowsAgree(Listed(RawCells(events, q)), q.kind, false, (t, v) => RawValue(events, q, Only(t, v)),
      RawVal(events, q));
  }

  /** Without a breakdown every kind shows at each instant the sum of its queries' values, on both paths, however often
      it is asked for and for every metric. */
  lemma MultiTotalsRefineRaw(ops: seq<Op>, qs: seq<Query>, now: int, crossed: seq<TrendRow>, united: seq<TrendRow>,
                             filled: seq<TrendRow>, kind: string, t: int)
    requires Answered(ops, qs, now, crossed, united, filled) && qs[0].breakdown.None?
    ensures var raw, rollup := Group(crossed, 0, TopLimit(qs[0])), Group(filled, 0, 0);
      && raw.Grouped? && rollup.Grouped?
      && ValueOf(rollup.series, kind, [], t) == ValueOf(raw.series, kind, [], t)
      && ValueOf(raw.series, kind, [], t) == KindSum(qs, kind, RawAt(Inserted(ops), "", t))
  {
    hide Group, ValueOf, Inserted, Stored, RawVal, KeyAt, Served, RawCells, Total, EntriesOf, Ahead, KindSum,
      UniformArity, CellRows, KindRows, Laid, Shown, ScannedCells;
    var events := Inserted(ops);
    CrossedIsPlain(crossed, events, qs);
    UnfoldedValue(crossed, 0, TopLimit(qs[0]), kind, "", t);
    UnlabelledCrossed(crossed, events, qs, kind, t);
    UnitedArity(united, Stored(ops), qs);
    FilledIsPlain(united, KindsIn(qs), filled, 0, SeriesKey(kind, ""), t);
    UnfoldedValue(filled, 0, 0, kind, "", t);
    UnlabelledUnited(united, ops, qs, now, kind, t);
  }

  lemma UnlabelledCrossed(rows: seq<TrendRow>, events: seq<Event>, qs: seq<Query>, kind: string, t: int)
    requires OneRequest(qs) && CrossJoined(rows, events, qs) && qs[0].breakdown.None?
    ensures KeyAt(rows, SeriesKey(kind, ""), t) == KindSum(qs, kind, RawAt(events, "", t))
  {
    hide PaddedRows, EntriesOf, ScannedCells, RawCells, RawVal, KeyAt, Total, KindSum, Laid;
    var key, part := SeriesKey(kind, ""), CrossedPart(events, qs);
    forall i | 0 <= i < |qs| ensures OwnRows(part(qs[i]), qs[i].kind) { PartsAreOwn(events, [], qs, qs[i]); }
    AnyOrder(rows, Laid(qs, part), key, t);
    LaidSums(qs, part, key, t);
    NoLabels(events, qs);
    forall i | OfKind(qs, kind, i) ensures AtIn(part, key, t)(qs[i]) == RawAt(events, "", t)(qs[i]) {
      ScannedHasRaw(events, qs, i);
      UnlabelledRows(events, qs[i], ScannedCells(events, qs), t);
    }
    KindSumAgrees(qs, kind, AtIn(part, key, t), RawAt(events, "", t));
  }

  lemma UnlabelledUnited(rows: seq<TrendRow>, ops: seq<Op>, qs: seq<Query>, now: int, kind: string, t: int)
    requires OneRequest(qs) && Served(ops, qs[0], now) && qs[0].breakdown.None? && United(rows, Stored(ops), qs)
    ensures KeyAt(rows, SeriesKey(kind, ""), t) == KindSum(qs, kind, RawAt(Inserted(ops), "", t))
  {
    hide PaddedRows, EntriesOf, GrainRows, RawCells, RawVal, KeyAt, Total, KindSum, Laid, Inserted, Stored,
      RollupWindowAligned, ScannedCells;
    var events, key, part := Inserted(ops), SeriesKey(kind, ""), UnitedPart(Stored(ops));
    forall i | 0 <= i < |qs| ensures OwnRows(part(qs[i]), qs[i].kind) { PartsAreOwn([], Stored(ops), qs, qs[i]); }
    AnyOrder(rows, Laid(qs, part), key, t);
    LaidSums(qs, part, key, t);
    NoLabels(events, qs);
    forall i | OfKind(qs, kind, i) ensures AtIn(part, key, t)(qs[i]) == RawAt(events, "", t)(qs[i]) {
      ScannedHasRaw(events, qs, i);
      assert Served(ops, qs[i], now);
      UnlabelledGrain(ops, qs[i], now);
      UnlabelledRows(events, qs[i], RawCells(events, qs[i]), t);
    }
    KindSumAgrees(qs, kind, AtIn(part, key, t), RawAt(events, "", t));
  }
}
