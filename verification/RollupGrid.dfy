/** Which rows and which series the two paths give for several event kinds. */
module RollupGrid {
  import opened Basics
  import opened Calendar
  import opened Breakdowns
  import opened WindowGuard
  import opened RollupStore
  import opened TrendSeries
  import opened TrendSeriesLaws
  import opened RollupTrends
  import opened RollupRefinement
  import opened ShownValues
  import opened RollupMulti
  import ZeroFill

  // ----- rows

  ghost predicate OnGrid(rows: seq<TrendRow>, kind: string, t: int, v: string) {
    ZeroFill.HasRow(rows, kind, ZeroFill.Cell(t, v))
  }

  lemma GridRows(rows: seq<TrendRow>, kind: string, t: int, v: string)
    ensures OnGrid(rows, kind, t, v) <==>
      exists r :: r in rows && r.kind == kind && ZeroFill.CellOf(r) == ZeroFill.Cell(t, v)
    ensures ZeroFill.HasCell(rows, ZeroFill.Cell(t, v)) <==>
      exists r :: r in rows && ZeroFill.CellOf(r) == ZeroFill.Cell(t, v)
  {
    hide ZeroFill.CellOf;
    if r :| r in rows && ZeroFill.CellOf(r) == ZeroFill.Cell(t, v) {
      var i :| 0 <= i < |rows| && rows[i] == r;
    }
    if i :| 0 <= i < |rows| && ZeroFill.CellOf(rows[i]) == ZeroFill.Cell(t, v) { assert rows[i] in rows; }
    if r :| r in rows && r.kind == kind && ZeroFill.CellOf(r) == ZeroFill.Cell(t, v) {
      var i :| 0 <= i < |rows| && rows[i] == r;
    }
    if i :| 0 <= i < |rows| && rows[i].kind == kind && ZeroFill.CellOf(rows[i]) == ZeroFill.Cell(t, v) {
      assert rows[i] in rows;
    }
  }

  /** Some query of the kind has a row in the cell. */
  ghost predicate PartOnGrid(qs: seq<Query>, part: Query -> seq<TrendRow>, kind: string, t: int, v: string) {
    exists i :: OfKind(qs, kind, i) && OnGrid(part(qs[i]), kind, t, v)
  }

  lemma LaidOnGrid(rows: seq<TrendRow>, qs: seq<Query>, part: Query -> seq<TrendRow>, kind: string, t: int, v: string)
    requires multiset(rows) == multiset(Laid(qs, part))
    requires forall i :: 0 <= i < |qs| ==> OwnRows(part(qs[i]), qs[i].kind)
    ensures OnGrid(rows, kind, t, v) <==> PartOnGrid(qs, part, kind, t, v)
  {
    hide ZeroFill.CellOf, OnGrid, Laid;
    SameElements(rows, Laid(qs, part));
    GridRows(rows, kind, t, v);
    if r :| r in rows && r.kind == kind && ZeroFill.CellOf(r) == ZeroFill.Cell(t, v) {
      LaidRows(qs, part, r);
      var i :| 0 <= i < |qs| && r in part(qs[i]);
      assert OwnRows(part(qs[i]), qs[i].kind);
      GridRows(part(qs[i]), kind, t, v);
      assert OfKind(qs, kind, i);
    }
    if i :| OfKind(qs, kind, i) && OnGrid(part(qs[i]), kind, t, v) {
      GridRows(part(qs[i]), kind, t, v);
      var r :| r in part(qs[i]) && r.kind == kind && ZeroFill.CellOf(r) == ZeroFill.Cell(t, v);
      LaidRows(qs, part, r);
    }
  }

  lemma CellRowsOnGrid(list: seq<(int, string)>, kind: string, labelled: bool, val: (int, string) -> real, t: int,
                       v: string)
    requires !labelled ==> forall c :: c in list ==> c.1 == ""
    ensures OnGrid(CellRows(list, kind, labelled, val), kind, t, v) <==> (t, v) in list
  {
    var rows := CellRows(list, kind, labelled, val);
    forall i | 0 <= i < |rows| ensures ZeroFill.CellOf(rows[i]) == ZeroFill.Cell(list[i].0, list[i].1) {
      assert BreakdownKey([list[i].1]) == list[i].1;
    }
    if i :| 0 <= i < |list| && list[i] == (t, v) { assert ZeroFill.CellOf(rows[i]) == ZeroFill.Cell(t, v); }
  }

  // ----- where nothing is folded

  /** No kind has more values than the limit, so the rollup folds none. */
  ghost predicate NothingFolds(events: seq<Event>, qs: seq<Query>) {
    forall i :: 0 <= i < |qs| && qs[i].breakdown.Some? ==> |Values(RawRows(events, qs[i]))| <= TopLimit(qs[i])
  }

  lemma FewValuesAreTop(rows: seq<TrendRow>, kind: string, n: nat)
    requires |Values(rows)| <= n
    ensures TopVals(rows, kind, n) == Values(rows)
  {
    hide Values;
    forall v | v in Values(rows) ensures v in TopVals(rows, kind, n) {
      var better := set w | w in Values(rows) && Outranks(rows, kind, w, v);
      BeforeAsymmetric(v, v);
      assert better <= Values(rows) - {v};
      SmallerSet(better, Values(rows) - {v});
    }
  }

  lemma SmallerSet(a: set<string>, b: set<string>)
    requires a <= b
    ensures |a| <= |b|
  {
    assert b == a + (b - a);
  }

  lemma KindOnGrid(ops: seq<Op>, qs: seq<Query>, now: int, i: nat, t: int, v: string)
    requires OneRequest(qs) && i < |qs| && Served(ops, qs[0], now) && NothingFolds(Inserted(ops), qs)
    ensures OnGrid(KindRows(Stored(ops), qs[i]), qs[i].kind, t, v) <==> (t, v) in RawCells(Inserted(ops), qs[i])
  {
    hide RawCells, MainCells, RawRows, MainRows, CellRows, Stored, Inserted, RollupWindowAligned, RawValue, Values,
      OnGrid, RawVal, TopVals, RollupValue, GrainRows;
    var events, q := Inserted(ops), qs[i];
    SharedBreakdown(qs, i);
    assert Served(ops, q, now);
    if q.breakdown.None? {
      UnlabelledGrain(ops, q, now);
      NoLabels(events, qs);
      ScannedHasRaw(events, qs, i);
      CellRowsOnGrid(Listed(RawCells(events, q)), q.kind, false, RawVal(events, q), t, v);
    } else {
      var top := RawTop(events, q);
      MainRowsAre(ops, q, now);
      CellRowsOnGrid(MainList(Stored(ops), q, top), q.kind, true, MainVal(Stored(ops), q, top), t, v);
      MainCellsAre(ops, q, now, top, t, v);
      FewValuesAreTop(RawRows(events, q), q.kind, TopLimit(q));
      forall w | (t, w) in RawCells(events, q) ensures Label(top, w) == w { ValueOccurs(events, q, w); }
    }
  }

  ghost predicate InSomeKind(events: seq<Event>, qs: seq<Query>, t: int, v: string) {
    exists i :: 0 <= i < |qs| && (t, v) in RawCells(events, qs[i])
  }

  lemma CrossedOnGrid(crossed: seq<TrendRow>, events: seq<Event>, qs: seq<Query>, i: nat, t: int, v: string)
    requires OneRequest(qs) && i < |qs| && CrossJoined(crossed, events, qs)
    ensures OnGrid(crossed, qs[i].kind, t, v) <==> (t, v) in ScannedCells(events, qs)
  {
    hide CellRows, RawVal, OnGrid, ScannedCells, Laid;
    var cells, part, kind := ScannedCells(events, qs), CrossedPart(events, qs), qs[i].kind;
    forall j | 0 <= j < |qs| ensures OwnRows(part(qs[j]), qs[j].kind) { PartsAreOwn(events, [], qs, qs[j]); }
    LaidOnGrid(crossed, qs, part, kind, t, v);
    if qs[0].breakdown.None? { NoLabels(events, qs); }
    forall j | 0 <= j < |qs| ensures OnGrid(part(qs[j]), qs[j].kind, t, v) <==> (t, v) in cells {
      SharedBreakdown(qs, j);
      CellRowsOnGrid(Listed(cells), qs[j].kind, qs[j].breakdown.Some?, RawVal(events, qs[j]), t, v);
    }
    assert OfKind(qs, kind, i);
  }

  lemma UnitedKinds(united: seq<TrendRow>, table: Table, qs: seq<Query>)
    requires qs != [] && United(united, table, qs)
    ensures forall r :: r in united ==> exists i :: 0 <= i < |qs| && r.kind == qs[i].kind
  {
    hide KindRows, Laid;
    SameElements(united, Laid(qs, UnitedPart(table)));
    forall r | r in united ensures exists i :: 0 <= i < |qs| && r.kind == qs[i].kind {
      LaidRows(qs, UnitedPart(table), r);
      var i :| 0 <= i < |qs| && r in UnitedPart(table)(qs[i]);
      PartsAreOwn([], table, qs, qs[i]);
    }
  }

  lemma UnitedOnGrid(ops: seq<Op>, qs: seq<Query>, now: int, united: seq<TrendRow>, t: int, v: string)
    requires OneRequest(qs) && Served(ops, qs[0], now) && NothingFolds(Inserted(ops), qs)
    requires United(united, Stored(ops), qs)
    ensures ZeroFill.HasCell(united, ZeroFill.Cell(t, v)) <==> InSomeKind(Inserted(ops), qs, t, v)
    ensures forall i :: 0 <= i < |qs| && OnGrid(united, qs[i].kind, t, v) ==>
      ZeroFill.HasCell(united, ZeroFill.Cell(t, v))
  {
    hide RawCells, KindRows, Laid, Stored, Inserted, RollupWindowAligned, NothingFolds, ZeroFill.CellOf, OnGrid;
    var c, part := ZeroFill.Cell(t, v), UnitedPart(Stored(ops));
    forall i | 0 <= i < |qs| ensures OwnRows(part(qs[i]), qs[i].kind) { PartsAreOwn([], Stored(ops), qs, qs[i]); }
    UnitedKinds(united, Stored(ops), qs);
    forall i | 0 <= i < |qs|
      ensures OnGrid(part(qs[i]), qs[i].kind, t, v) <==> (t, v) in RawCells(Inserted(ops), qs[i])
      ensures OnGrid(united, qs[i].kind, t, v) <==> PartOnGrid(qs, part, qs[i].kind, t, v)
    {
      LaidOnGrid(united, qs, part, qs[i].kind, t, v);
      KindOnGrid(ops, qs, now, i, t, v);
    }
    GridRows(united, "", t, v);
    if r :| r in united && ZeroFill.CellOf(r) == c {
      var i :| 0 <= i < |qs| && r.kind == qs[i].kind;
      GridRows(united, qs[i].kind, t, v);
      assert OnGrid(united, qs[i].kind, t, v);
      var j :| OfKind(qs, qs[i].kind, j) && OnGrid(part(qs[j]), qs[i].kind, t, v);
    }
    forall i | 0 <= i < |qs| && OnGrid(united, qs[i].kind, t, v) ensures ZeroFill.HasCell(united, c) {
      GridRows(united, qs[i].kind, t, v);
    }
    if i :| 0 <= i < |qs| && (t, v) in RawCells(Inserted(ops), qs[i]) {
      assert OfKind(qs, qs[i].kind, i);
      assert OnGrid(united, qs[i].kind, t, v);
    }
  }

  /** No row of the union is labelled `$others`, so every kind is filled everywhere. */
  lemma NoneIsFolded(ops: seq<Op>, qs: seq<Query>, now: int, united: seq<TrendRow>, kind: string)
    requires OneRequest(qs) && Served(ops, qs[0], now) && NothingFolds(Inserted(ops), qs)
    requires United(united, Stored(ops), qs)
    requires qs[0].breakdown.Some? ==> NoLiteralScanned(Inserted(ops), qs)
    ensures !ZeroFill.Folded(united, kind)
  {
    hide RawCells, KindRows, Stored, Inserted, RollupWindowAligned, NothingFolds, NoLiteralScanned, Laid;
    UnitedArity(united, Stored(ops), qs);
    if ZeroFill.Folded(united, kind) {
      var j :| 0 <= j < |united| && united[j].kind == kind && OTHERS in united[j].breakdowns;
      assert |united[j].breakdowns| == Arity(qs[0]);
      assert united[j].breakdowns == [OTHERS];
      assert BreakdownKey([OTHERS]) == OTHERS;
      UnitedOnGrid(ops, qs, now, united, united[j].time, OTHERS);
      var i :| 0 <= i < |qs| && (united[j].time, OTHERS) in RawCells(Inserted(ops), qs[i]);
      ScannedHasRaw(Inserted(ops), qs, i);
      NoLiteralOfKind(Inserted(ops), qs, i);
      assert false;
    }
  }

  /** A filled row stands in a cell of the rows. */
  lemma FilledCells(rows: seq<TrendRow>, kinds: seq<string>, filled: seq<TrendRow>, kind: string, t: int, v: string)
    requires ZeroFill.Filled(rows, kinds, filled) && |kinds| > 1 && OnGrid(filled, kind, t, v)
    ensures ZeroFill.HasCell(rows, ZeroFill.Cell(t, v))
  {
    hide ZeroFill.CellOf, ZeroFill.Filled;
    var c := ZeroFill.Cell(t, v);
    if rows == [] { NothingFilled(kinds, filled); }
    var j :| 0 <= j < |filled| && filled[j].kind == kind && ZeroFill.CellOf(filled[j]) == c;
    if j < |rows| {
      FilledKeeps(rows, kinds, filled);
      assert rows[j] == filled[j];
    } else {
      ZeroFill.FilledRow(rows, kinds, filled, j);
    }
  }

  lemma NothingFilled(kinds: seq<string>, filled: seq<TrendRow>)
    requires ZeroFill.Filled([], kinds, filled)
    ensures filled == []
  {
  }

  lemma FilledKeeps(rows: seq<TrendRow>, kinds: seq<string>, filled: seq<TrendRow>)
    requires ZeroFill.Filled(rows, kinds, filled)
    ensures rows <= filled
  {
  }

  lemma FilledOnGrid(ops: seq<Op>, qs: seq<Query>, now: int, united: seq<TrendRow>, filled: seq<TrendRow>,
                     i: nat, t: int, v: string)
    requires OneRequest(qs) && i < |qs| && Served(ops, qs[0], now) && NothingFolds(Inserted(ops), qs)
    requires qs[0].breakdown.Some? ==> NoLiteralScanned(Inserted(ops), qs)
    requires United(united, Stored(ops), qs) && ZeroFill.Filled(united, KindsIn(qs), filled)
    requires forall j :: 0 <= j < |qs| ==> '\0' !in qs[j].kind
    ensures OnGrid(filled, qs[i].kind, t, v) <==> InSomeKind(Inserted(ops), qs, t, v)
  {
    hide RawCells, KindRows, Stored, Inserted, RollupWindowAligned, NothingFolds, NoLiteralScanned, ZeroFill.CellOf,
      ZeroFill.Filled, ZeroFill.Folded, ZeroFill.Names, InSomeKind, Laid;
    var kinds, kind, c := KindsIn(qs), qs[i].kind, ZeroFill.Cell(t, v);
    assert kinds[i] == kind;
    UnitedOnGrid(ops, qs, now, united, t, v);
    NoneIsFolded(ops, qs, now, united, kind);
    UnitedKinds(united, Stored(ops), qs);
    assert ZeroFill.PlainKinds(united, kinds);
    ZeroFill.FillClosesTheGrid(united, kinds, filled);
    if OnGrid(filled, kind, t, v) { FilledCells(united, kinds, filled, kind, t, v); }
  }

  ghost predicate SameGrid(a: seq<TrendRow>, b: seq<TrendRow>, qs: seq<Query>) {
    forall i, t, v :: 0 <= i < |qs| ==> (OnGrid(a, qs[i].kind, t, v) <==> OnGrid(b, qs[i].kind, t, v))
  }

  /** Where no kind is folded, filling makes the grid of the CROSS JOIN exactly when every scanned cell holds an event
      that some kind counts; a cell with cookieless events alone can be missing. */
  lemma GridsAgreeExactly(ops: seq<Op>, qs: seq<Query>, now: int, crossed: seq<TrendRow>, united: seq<TrendRow>,
                          filled: seq<TrendRow>)
    requires Answered(ops, qs, now, crossed, united, filled) && NothingFolds(Inserted(ops), qs)
    requires forall j :: 0 <= j < |qs| ==> '\0' !in qs[j].kind
    ensures SameGrid(crossed, filled, qs) <==>
      forall e :: e in Inserted(ops) && Scans(qs, e) ==>
        InSomeKind(Inserted(ops), qs, CellOf(qs[0], e).0, CellOf(qs[0], e).1)
  {
    hide RawCells, Stored, Inserted, Served, NothingFolds, NoLiteralScanned, InSomeKind, CrossJoined, United,
      ZeroFill.Filled, OnGrid, CellOf, Scans;
    var events := Inserted(ops);
    ScannedByEvents(events, qs);
    forall i, t, v | 0 <= i < |qs| ensures SameThere(crossed, filled, events, qs, i, t, v) {
      CrossedOnGrid(crossed, events, qs, i, t, v);
      FilledOnGrid(ops, qs, now, united, filled, i, t, v);
      if InSomeKind(events, qs, t, v) { SomeKindIsScanned(events, qs, t, v); }
    }
    if SameGrid(crossed, filled, qs) {
      forall t, v | (t, v) in ScannedCells(events, qs) ensures InSomeKind(events, qs, t, v) {
        assert SameThere(crossed, filled, events, qs, 0, t, v);
      }
    } else {
      var i, t, v :| 0 <= i < |qs| && OnGrid(crossed, qs[i].kind, t, v) != OnGrid(filled, qs[i].kind, t, v);
      assert SameThere(crossed, filled, events, qs, i, t, v);
    }
  }

  /** The two sides agree on a pair of kind and cell unless the cell is scanned and counted by no kind. */
  ghost predicate SameThere(crossed: seq<TrendRow>, filled: seq<TrendRow>, events: seq<Event>, qs: seq<Query>,
                            i: nat, t: int, v: string)
    requires i < |qs|
  {
    (OnGrid(crossed, qs[i].kind, t, v) <==> OnGrid(filled, qs[i].kind, t, v)) <==>
    ((t, v) in ScannedCells(events, qs) ==> InSomeKind(events, qs, t, v))
  }

  lemma SomeKindIsScanned(events: seq<Event>, qs: seq<Query>, t: int, v: string)
    requires OneRequest(qs) && InSomeKind(events, qs, t, v)
    ensures (t, v) in ScannedCells(events, qs)
  {
    hide RawCells, ScannedCells;
    var i :| 0 <= i < |qs| && (t, v) in RawCells(events, qs[i]);
    ScannedHasRaw(events, qs, i);
  }

  lemma ScannedByEvents(events: seq<Event>, qs: seq<Query>)
    requires qs != []
    ensures (forall t, v :: (t, v) in ScannedCells(events, qs) ==> InSomeKind(events, qs, t, v)) <==>
      forall e :: e in events && Scans(qs, e) ==> InSomeKind(events, qs, CellOf(qs[0], e).0, CellOf(qs[0], e).1)
  {
    hide RawCells, CellOf, Scans, InSomeKind;
    forall e | e in events && Scans(qs, e)
      ensures (CellOf(qs[0], e).0, CellOf(qs[0], e).1) in ScannedCells(events, qs)
    {
      assert CellOf(qs[0], e) in ScannedCells(events, qs);
    }
  }

  // ----- which series the groupings give

  /** The rollup leaves a value of the query out exactly when there are more than the limit. */
  lemma LeftOutExactly(events: seq<Event>, q: Query)
    requires q.breakdown.Some?
    ensures LeftOut(events, q) != {} <==> |Values(RawRows(events, q))| > TopLimit(q)
  {
    hide RawRows, Values, EntriesOf, Ahead, TopVals;
    var ranked, n := RawRanked(events, q), TopLimit(q);
    if |Values(RawRows(events, q))| <= n {
      FewValuesAreTop(RawRows(events, q), q.kind, n);
    } else {
      RankedByValue(events, q);
      var last := ranked[|ranked| - 1];
      assert last in ranked && last == SeriesKey(q.kind, last.breakdown);
      TopIsRanked(events, q, last.breakdown);
      assert last !in ranked[..n];
      assert last.breakdown in LeftOut(events, q);
    }
  }

  lemma RankedByValue(events: seq<Event>, q: Query)
    requires q.breakdown.Some?
    ensures var ranked := RawRanked(events, q);
      && |ranked| == |Values(RawRows(events, q))| && Distinct(ranked)
      && forall k :: k in ranked ==> k.kind == q.kind && k.breakdown in Values(RawRows(events, q))
  {
    hide RawRows, Values, EntriesOf, Ahead, RawRanked;
    var ranked, vals := RawRanked(events, q), Values(RawRows(events, q));
    RankedFacts(events, q);
    forall k ensures k in ranked <==> k.kind == q.kind && k.breakdown in vals { RawEntry(events, q, k.breakdown); }
    SizeOfDistinct(ranked);
    SizeOfKeys(vals, q.kind);
    assert (set k | k in ranked) == set v | v in vals :: SeriesKey(q.kind, v);
  }

  ghost predicate KindLabels(events: seq<Event>, qs: seq<Query>, kind: string, v: string) {
    exists i :: OfKind(qs, kind, i) && Labels(events, qs[i], v)
  }

  ghost predicate SomeLabels(events: seq<Event>, qs: seq<Query>, v: string) {
    exists i :: 0 <= i < |qs| && Labels(events, qs[i], v)
  }

  lemma NamesAreKeys(rows: seq<TrendRow>, kind: string, b: string)
    ensures ZeroFill.Names(rows, kind, b) <==> SeriesKey(kind, b) in EntriesOf(rows)
    ensures UniformArity(rows, 1) ==> (ZeroFill.Folded(rows, kind) <==> ZeroFill.Names(rows, kind, OTHERS))
  {
    hide EntriesOf;
    KeyPresent(rows, SeriesKey(kind, b));
    if r :| r in rows && KeyOf(r) == SeriesKey(kind, b) {
      var i :| 0 <= i < |rows| && rows[i] == r;
    }
    if i :| 0 <= i < |rows| && rows[i].kind == kind && BreakdownKey(rows[i].breakdowns) == b { assert rows[i] in rows; }
    if UniformArity(rows, 1) {
      forall i | 0 <= i < |rows| ensures OTHERS in rows[i].breakdowns <==> BreakdownKey(rows[i].breakdowns) == OTHERS {
        assert rows[i].breakdowns == [rows[i].breakdowns[0]];
      }
    }
  }

  /** A filled kind has the keys of its own rows, and those of all other rows unless it was folded. */
  lemma FilledKeys(rows: seq<TrendRow>, kinds: seq<string>, filled: seq<TrendRow>, kind: string, b: string)
    requires ZeroFill.Filled(rows, kinds, filled) && ZeroFill.PlainKinds(rows, kinds) && |kinds| > 1 && kind in kinds
    ensures SeriesKey(kind, b) in EntriesOf(filled) <==>
      ZeroFill.Names(rows, kind, b) ||
        (!ZeroFill.Folded(rows, kind) && exists r :: r in rows && KeyOf(r).breakdown == b)
  {
    hide EntriesOf, ZeroFill.Filled, BreakdownKey, ZeroFill.Folded, ZeroFill.Names;
    ZeroFill.FillClosesTheGrid(rows, kinds, filled);
    NamesAreKeys(filled, kind, b);
    if SeriesKey(kind, b) in EntriesOf(filled) { FilledKeyFrom(rows, kinds, filled, kind, b); }
    if ZeroFill.Names(rows, kind, b) { NamesStay(rows, filled, kind, b); }
    if !ZeroFill.Folded(rows, kind) && exists r :: r in rows && KeyOf(r).breakdown == b {
      var r :| r in rows && KeyOf(r).breakdown == b;
      var i :| 0 <= i < |rows| && rows[i] == r;
      var c := ZeroFill.CellOf(r);
      assert ZeroFill.HasCell(rows, c);
      assert ZeroFill.HasRow(filled, kind, c);
      RowIsNamed(filled, kind, c);
    }
  }

  lemma RowIsNamed(rows: seq<TrendRow>, kind: string, c: ZeroFill.Cell)
    requires ZeroFill.HasRow(rows, kind, c)
    ensures ZeroFill.Names(rows, kind, c.breakdown)
  {
    hide BreakdownKey;
    var i :| 0 <= i < |rows| && rows[i].kind == kind && ZeroFill.CellOf(rows[i]) == c;
    assert BreakdownKey(rows[i].breakdowns) == c.breakdown;
  }

  lemma NamesStay(rows: seq<TrendRow>, filled: seq<TrendRow>, kind: string, b: string)
    requires rows <= filled && ZeroFill.Names(rows, kind, b)
    ensures ZeroFill.Names(filled, kind, b)
  {
    hide BreakdownKey;
    var i :| 0 <= i < |rows| && rows[i].kind == kind && BreakdownKey(rows[i].breakdowns) == b;
    assert filled[i] == rows[i];
  }

  lemma FilledKeyFrom(rows: seq<TrendRow>, kinds: seq<string>, filled: seq<TrendRow>, kind: string, b: string)
    requires ZeroFill.Filled(rows, kinds, filled) && ZeroFill.PlainKinds(rows, kinds) && |kinds| > 1 && kind in kinds
    requires SeriesKey(kind, b) in EntriesOf(filled)
    ensures ZeroFill.Names(rows, kind, b) ||
      (!ZeroFill.Folded(rows, kind) && exists r :: r in rows && KeyOf(r).breakdown == b)
  {
    hide EntriesOf, ZeroFill.Filled, BreakdownKey, ZeroFill.Folded;
    NamesAreKeys(filled, kind, b);
    var j :| 0 <= j < |filled| && filled[j].kind == kind && BreakdownKey(filled[j].breakdowns) == b;
    var c := ZeroFill.CellOf(filled[j]);
    assert OnGrid(filled, kind, c.nanos, b);
    FilledCells(rows, kinds, filled, kind, c.nanos, b);
    assert ZeroFill.HasCell(rows, c);
    ZeroFill.FillClosesTheGrid(rows, kinds, filled);
    if ZeroFill.HasRow(rows, kind, c) { RowIsNamed(rows, kind, c); }
    var i :| 0 <= i < |rows| && ZeroFill.CellOf(rows[i]) == c;
    assert rows[i] in rows && KeyOf(rows[i]).breakdown == b;
  }

  /** The series of the rollup: a kind has those its queries label and, if none of them is folded, zero series for the
      labels of all other kinds, `$others` among them. */
  lemma RollupShowsExactly(ops: seq<Op>, qs: seq<Query>, now: int, crossed: seq<TrendRow>, united: seq<TrendRow>,
                           filled: seq<TrendRow>, i: nat, v: string)
    requires Answered(ops, qs, now, crossed, united, filled) && i < |qs| && qs[0].breakdown.Some?
    requires forall j :: 0 <= j < |qs| ==> '\0' !in qs[j].kind
    ensures var out, events, kind := Group(filled, 1, 0), Inserted(ops), qs[i].kind;
      && out.Grouped?
      && (Shown(out.series, kind, [v]) <==>
            KindLabels(events, qs, kind, v) || (!KindLabels(events, qs, kind, OTHERS) && SomeLabels(events, qs, v)))
  {
    hide Group, Inserted, Stored, Served, NoLiteralScanned, CrossJoined, Laid, KeyAt, EntriesOf, Shown, ValueOf,
      ZeroFill.Filled, ZeroFill.Names, ZeroFill.Folded, Labels, KindSum, UniformArity, BreakdownKey, NamedAt, LeftAt;
    var events, kind, kinds := Inserted(ops), qs[i].kind, KindsIn(qs);
    UnitedArity(united, Stored(ops), qs);
    UnitedKinds(united, Stored(ops), qs);
    FilledIsPlain(united, kinds, filled, 1, SeriesKey(kind, v), 0);
    UnfoldedValue(filled, 1, 0, kind, v, 0);
    assert kinds[i] == kind;
    FilledKeys(united, kinds, filled, kind, v);
    NamesAreKeys(united, kind, v);
    NamesAreKeys(united, kind, OTHERS);
    UnitedKey(united, ops, qs, now, kind, v, 0);
    UnitedKey(united, ops, qs, now, kind, OTHERS, 0);
    LabelledRows(united, ops, qs, now, v);
  }

  lemma LabelledRows(united: seq<TrendRow>, ops: seq<Op>, qs: seq<Query>, now: int, v: string)
    requires OneRequest(qs) && Served(ops, qs[0], now) && qs[0].breakdown.Some? && United(united, Stored(ops), qs)
    requires NoLiteralScanned(Inserted(ops), qs)
    ensures (exists r :: r in united && KeyOf(r).breakdown == v) <==> SomeLabels(Inserted(ops), qs, v)
  {
    hide Inserted, Stored, Served, NoLiteralScanned, Laid, KeyAt, EntriesOf, Labels, KindSum, BreakdownKey;
    if r :| r in united && KeyOf(r).breakdown == v {
      assert HasKey(united, SeriesKey(r.kind, v));
      KeyPresent(united, SeriesKey(r.kind, v));
      UnitedKey(united, ops, qs, now, r.kind, v, 0);
      var i :| OfKind(qs, r.kind, i) && Labels(Inserted(ops), qs[i], v);
    }
    if i :| 0 <= i < |qs| && Labels(Inserted(ops), qs[i], v) {
      assert OfKind(qs, qs[i].kind, i);
      UnitedKey(united, ops, qs, now, qs[i].kind, v, 0);
      KeyPresent(united, SeriesKey(qs[i].kind, v));
      var r :| r in united && KeyOf(r) == SeriesKey(qs[i].kind, v);
    }
  }

  /** The series of the raw path: a kind has those of the scanned values that rank below the limit by combined total,
      zeros by name, and `$others` when there are more scanned values than the limit. */
  lemma RawShowsExactly(ops: seq<Op>, qs: seq<Query>, now: int, crossed: seq<TrendRow>, united: seq<TrendRow>,
                        filled: seq<TrendRow>, i: nat, v: string)
    requires Answered(ops, qs, now, crossed, united, filled) && i < |qs| && qs[0].breakdown.Some?
    ensures var out, events, kind := Group(crossed, 1, TopLimit(qs[0])), Inserted(ops), qs[i].kind;
      && out.Grouped?
      && (Shown(out.series, kind, [v]) <==>
            if v == OTHERS then |ScannedValues(events, qs)| > TopLimit(qs[0])
            else v in Best(events, qs, kind, ScannedValues(events, qs)))
  {
    hide Group, Inserted, Stored, Served, NoLiteralScanned, CrossJoined, United, Shown, ValueOf, ZeroFill.Filled, Best,
      ScannedValues, KindSum, CombinedTop;
    CrossedValue(crossed, Inserted(ops), qs, i, v, 0);
  }

  // ----- rows exist for every request

  lemma AnswersExist(ops: seq<Op>, qs: seq<Query>, now: int)
    requires OneRequest(qs) && Served(ops, qs[0], now)
    requires qs[0].breakdown.Some? ==> NoLiteralScanned(Inserted(ops), qs)
    ensures exists crossed, united, filled :: Answered(ops, qs, now, crossed, united, filled)
  {
    var crossed, united := Laid(qs, CrossedPart(Inserted(ops), qs)), Laid(qs, UnitedPart(Stored(ops)));
    hide Laid, Inserted, Stored, Served, NoLiteralScanned, ZeroFill.Filled;
    ZeroFill.FillExists(united, KindsIn(qs));
    var filled :| ZeroFill.Filled(united, KindsIn(qs), filled);
    assert Answered(ops, qs, now, crossed, united, filled);
  }
}
