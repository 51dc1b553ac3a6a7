/** Inputs on which the two paths give several event kinds different rows or different values. */
module RollupInputs {
  import opened Basics
  import opened Calendar
  import opened Breakdowns
  import opened WindowGuard
  import opened RollupStore
  import opened TrendSeries
  import opened TrendSeriesLaws
  import opened RollupTrends
  import opened RollupRefinement
  import opened ShownValues
  import opened RollupMulti
  import opened RollupGrid
  import ZeroFill

  // ----- a day with one cookieless visit

  function Visit(): Event { Event(0, "a", ID_PREFIX, map[], false) }

  function OneVisit(): seq<Op> { [Ingest(Visit())] }

  function PeoplePerDay(kind: string): Query { Query(kind, UniqueUsers, None, false, false, 0, Daily, 0, DAY) }

  function TwoKinds(): seq<Query> { [PeoplePerDay("a"), PeoplePerDay("b")] }

  function TwoZeros(): seq<TrendRow> { [TrendRow(0, "a", [], 0.0), TrendRow(0, "b", [], 0.0)] }

  /** The CROSS JOIN gives zero users for both kinds, the rollup no row at all. */
  lemma CookielessDayIsMissing()
    ensures Answered(OneVisit(), TwoKinds(), DAY, TwoZeros(), [], [])
    ensures !SameGrid(TwoZeros(), [], TwoKinds())
  {
    hide Stored, Inserted, OneVisit, Visit, Served, RawCells, CrossJoined, United;
    VisitIsServed();
    VisitCrossed();
    VisitUnited();
    assert ZeroFill.HasRow(TwoZeros(), "a", ZeroFill.Cell(0, "")) by {
      assert ZeroFill.CellOf(TwoZeros()[0]) == ZeroFill.Cell(0, "");
    }
    assert TwoKinds()[0].kind == "a";
    assert OnGrid(TwoZeros(), TwoKinds()[0].kind, 0, "") && !OnGrid([], TwoKinds()[0].kind, 0, "");
  }

  lemma VisitIsServed()
    ensures Inserted(OneVisit()) == [Visit()] && OneRequest(TwoKinds())
    ensures forall i :: 0 <= i < |TwoKinds()| ==>
      RawCells([Visit()], TwoKinds()[i]) == {} && Served(OneVisit(), TwoKinds()[i], DAY)
  {
    var ops := OneVisit();
    assert ops[..0] == [];
    assert Inserted(ops) == [Visit()];
    forall i | 0 <= i < |TwoKinds()| ensures RawCells([Visit()], TwoKinds()[i]) == {} {
      NothingSelected(TwoKinds()[i], Visit());
    }
  }

  lemma NothingSelected(q: Query, e: Event)
    requires ExcludesCookieless(q) && Cookieless(e.distinctId)
    ensures RawCells([e], q) == {}
  {
  }

  lemma OnlyCell(c: (int, string))
    ensures Listed({c}) == [c]
  {
    SingleList(Listed({c}), c);
  }

  lemma SingleList(list: seq<(int, string)>, c: (int, string))
    requires Distinct(list) && c in list && forall x :: x in list ==> x == c
    ensures list == [c]
  {
    forall i | 0 <= i < |list| ensures list[i] == c { assert list[i] in list; }
    if |list| > 1 {
      FirstTwo(list);
      assert false;
    }
  }

  lemma FirstTwo(list: seq<(int, string)>)
    requires Distinct(list) && |list| > 1
    ensures list[0] != list[1]
  {
  }

  lemma NoCell()
    ensures Listed({}) == []
  {
  }

  lemma VisitCrossed()
    ensures CrossJoined(TwoZeros(), [Visit()], TwoKinds())
  {
    hide Visit, RawCells, ScannedCells, PaddedRows, Served, Inserted;
    var events, qs := [Visit()], TwoKinds();
    var part := CrossedPart(events, qs);
    VisitIsServed();
    VisitCell();
    forall i | 0 <= i < |qs| ensures part(qs[i]) == [TrendRow(0, qs[i].kind, [], 0.0)] { ZeroRow(events, qs[i]); }
    TwoLaid(qs[0], qs[1], part);
  }

  lemma VisitCell()
    ensures ScannedCells([Visit()], TwoKinds()) == {(0, "")}
  {
    var qs := TwoKinds();
    assert Visit().kind == qs[0].kind && Scans(qs, Visit());
    assert CellOf(qs[0], Visit()) == (0, "");
  }

  lemma ZeroRow(events: seq<Event>, q: Query)
    requires RawCells(events, q) == {} && q.breakdown.None?
    ensures PaddedRows(events, q, {(0, "")}) == [TrendRow(0, q.kind, [], 0.0)]
  {
    hide RawVal, Listed, RawCells;
    OnlyCell((0, ""));
    EmptyOutside(events, q, (0, ""));
  }

  lemma TwoLaid(a: Query, b: Query, part: Query -> seq<TrendRow>)
    ensures Laid([a, b], part) == part(a) + part(b)
  {
    assert [a, b][..1] == [a] && [a][..0] == [];
    assert Laid([a], part) == Laid([], part) + part(a);
  }

  lemma VisitUnited()
    ensures United([], Stored(OneVisit()), TwoKinds())
  {
    hide Stored, Inserted, OneVisit, Visit, Served, RawCells, GrainRows, MainRows;
    var qs := TwoKinds();
    var part := UnitedPart(Stored(OneVisit()));
    VisitIsServed();
    forall i | 0 <= i < |qs| ensures part(qs[i]) == [] { NoRows(OneVisit(), qs[i], DAY); }
    hide KindRows, UnitedPart;
    TwoLaid(qs[0], qs[1], part);
  }

  lemma NoRows(ops: seq<Op>, q: Query, now: int)
    requires Served(ops, q, now) && RawCells(Inserted(ops), q) == {} && q.breakdown.None?
    ensures KindRows(Stored(ops), q) == []
  {
    hide Stored, Inserted, Served, RawCells, RollupCells;
    SameCells(ops, q, now);
    NoCell();
  }

  // ----- one kind asked for twice

  function From(id: string, country: string): Event { Event(0, "k", id, map[Country := country], false) }

  function FourVisits(): seq<Event> { [From("u", "a"), From("u", "a"), From("v", "b"), From("w", "b")] }

  function FourInserts(): seq<Op> {
    [Ingest(FourVisits()[0]), Ingest(FourVisits()[1]), Ingest(FourVisits()[2]), Ingest(FourVisits()[3])]
  }

  function TopOne(m: Metric): Query { Query("k", m, Some(Country), false, false, 1, Daily, 0, DAY) }

  function BothMetrics(): seq<Query> { [TopOne(TotalCount), TopOne(UniqueUsers)] }

  lemma FourInserted()
    ensures Inserted(FourInserts()) == FourVisits()
  {
    var ops, all := FourInserts(), FourVisits();
    assert ops[..3][..2] == ops[..2] && ops[..2][..1] == ops[..1] && ops[..1][..0] == [];
    assert Inserted(ops[..1]) == [all[0]];
    assert Inserted(ops[..2]) == [all[0], all[1]];
    assert Inserted(ops[..3]) == [all[0], all[1], all[2]];
    assert Inserted(ops) == Inserted(ops[..3]) + [all[3]];
  }

  function One(p: Event -> bool, e: Event): nat { if p(e) then 1 else 0 }

  function Id(p: Event -> bool, e: Event): set<string> { if p(e) then {e.distinctId} else {} }

  lemma Counted(a: Event, b: Event, c: Event, d: Event, p: Event -> bool)
    ensures Count([a, b, c, d], p) == One(p, a) + One(p, b) + One(p, c) + One(p, d)
    ensures Uniq([a, b, c, d], p) == Id(p, a) + Id(p, b) + Id(p, c) + Id(p, d)
  {
    NoneCounted(p);
    hide Count, Uniq;
    assert [] + [a] == [a] && [a] + [b] == [a, b] && [a, b] + [c] == [a, b, c] && [a, b, c] + [d] == [a, b, c, d];
    CountSnoc([], a, p);
    CountSnoc([a], b, p);
    CountSnoc([a, b], c, p);
    CountSnoc([a, b, c], d, p);
  }

  lemma NoneCounted(p: Event -> bool)
    ensures Count([], p) == 0 && Uniq([], p) == {}
  {
  }

  /** Two events of one user from a, two users with one event each from b. */
  lemma FourValues(m: Metric)
    requires !m.PerUserAvg?
    ensures RawVal(FourVisits(), TopOne(m))(0, "a") == (if m.TotalCount? then 2.0 else 1.0)
    ensures RawVal(FourVisits(), TopOne(m))(0, "b") == 2.0
  {
    hide FourVisits, RawIn, Before, Cookieless;
    var q := TopOne(m);
    FourCounts(q);
    Letters();
    TwoIds("v", "w");
    assert |{"u"}| == 1;
  }

  lemma TwoIds(x: string, y: string)
    requires x != y
    ensures |{x, y}| == 2
  {
    assert {x, y} == {x} + {y};
  }

  lemma FourCounts(q: Query)
    requires q == TopOne(q.metric)
    ensures var a, b := RawIn(q, Only(0, "a")), RawIn(q, Only(0, "b"));
      && Count(FourVisits(), a) == 2 && Uniq(FourVisits(), a) == {"u"}
      && Count(FourVisits(), b) == 2 && Uniq(FourVisits(), b) == {"v", "w"}
  {
    var all := FourVisits();
    var a, b := RawIn(q, Only(0, "a")), RawIn(q, Only(0, "b"));
    forall i | 0 <= i < 4 ensures a(all[i]) == (i < 2) && b(all[i]) == (i >= 2) { VisitIn(q, i); }
    hide RawIn, RawSelects, CellOf, DimValue, Count, Uniq, Cookieless;
    Counted(all[0], all[1], all[2], all[3], a);
    Counted(all[0], all[1], all[2], all[3], b);
  }

  lemma VisitIn(q: Query, i: nat)
    requires q == TopOne(q.metric) && i < 4
    ensures RawSelects(q, FourVisits()[i]) && CellOf(q, FourVisits()[i]) == (0, if i < 2 then "a" else "b")
    ensures RawIn(q, Only(0, "a"))(FourVisits()[i]) == (i < 2)
    ensures RawIn(q, Only(0, "b"))(FourVisits()[i]) == (i >= 2)
  {
    Letters();
  }

  lemma FourCells(q: Query, t: int, v: string)
    requires q == TopOne(q.metric)
    ensures (t, v) in RawCells(FourVisits(), q) <==> t == 0 && (v == "a" || v == "b")
  {
    var all := FourVisits();
    forall i | 0 <= i < 4
      ensures RawSelects(q, all[i]) && CellOf(q, all[i]) == (0, if i < 2 then "a" else "b") && all[i] in all
    {
      VisitIn(q, i);
    }
    hide RawSelects, CellOf;
    if (t, v) in RawCells(all, q) {
      var e :| e in all && RawSelects(q, e) && CellOf(q, e) == (t, v);
    }
    assert CellOf(q, all[0]) in RawCells(all, q) && CellOf(q, all[2]) in RawCells(all, q);
  }

  lemma Letters()
    ensures "a" != "b" && "v" != "w" && "u" != "v" && Before("a", "b") && !Before("b", "a")
    ensures !Before("a", "a") && !Before("b", "b")
    ensures !Cookieless("u") && !Cookieless("v") && !Cookieless("w")
  {
    assert "a"[0] != "b"[0] && "v"[0] != "w"[0] && "u"[0] != "v"[0];
    assert |ID_PREFIX| > 1;
  }

  // ----- its rankings

  lemma {:induction false} OneDayTotal(list: seq<(int, string)>, kind: string, val: (int, string) -> real, v: string)
    requires Distinct(list) && forall c :: c in list ==> c.0 == 0
    ensures Total(CellRows(list, kind, true, val), SeriesKey(kind, v)) == if (0, v) in list then val(0, v) else 0.0
  {
    hide Total, CellRows;
    if list == [] {
      NoCells(kind, val, SeriesKey(kind, v));
    } else {
      var n := |list| - 1;
      OneDayTotal(list[..n], kind, val, v);
      assert list == list[..n] + [list[n]] && list[n] == (0, list[n].1);
      CellsAppend(list[..n], [list[n]], kind, val, SeriesKey(kind, v));
      OneCell(list[n], kind, val, v);
    }
  }

  lemma FourTotals(m: Metric)
    requires !m.PerUserAvg?
    ensures Total(RawRows(FourVisits(), TopOne(m)), SeriesKey("k", "a")) == if m.TotalCount? then 2.0 else 1.0
    ensures Total(RawRows(FourVisits(), TopOne(m)), SeriesKey("k", "b")) == 2.0
    ensures Values(RawRows(FourVisits(), TopOne(m))) == {"a", "b"}
  {
    var q, all := TopOne(m), FourVisits();
    hide FourVisits, RawVal, RawCells, RawRows, Values, CellRows, Total;
    FourValues(m);
    forall t, v ensures (t, v) in RawCells(all, q) <==> t == 0 && (v == "a" || v == "b") { FourCells(q, t, v); }
    RawRowsAre(all, q);
    OneDayTotal(RawList(all, q), "k", RawVal(all, q), "a");
    OneDayTotal(RawList(all, q), "k", RawVal(all, q), "b");
    forall v ensures v in Values(RawRows(all, q)) <==> v == "a" || v == "b" {
      ValuesOccur(all, q, v);
      assert (0, v) in RawCells(all, q) <==> v == "a" || v == "b";
    }
  }

  /** Counting events a and b tie, and a comes first by name; counting users b is ahead. */
  lemma FourTops()
    ensures RawTop(FourVisits(), TopOne(TotalCount)) == {"a"}
    ensures RawTop(FourVisits(), TopOne(UniqueUsers)) == {"b"}
  {
    hide FourVisits, RawRows, Values, Total, Before;
    Letters();
    FourTotals(TotalCount);
    FourTotals(UniqueUsers);
    FirstOfTwo(RawRows(FourVisits(), TopOne(TotalCount)), "k", "a", "b");
    FirstOfTwo(RawRows(FourVisits(), TopOne(UniqueUsers)), "k", "b", "a");
  }

  lemma FirstOfTwo(rows: seq<TrendRow>, kind: string, x: string, y: string)
    requires Values(rows) == {x, y} && x != y
    requires Outranks(rows, kind, x, y) && !Outranks(rows, kind, y, x)
    ensures TopVals(rows, kind, 1) == {x}
  {
    hide Values, Total;
    BeforeAsymmetric(x, x);
    var ahead, behind := set w | w in Values(rows) && Outranks(rows, kind, w, x),
                         set w | w in Values(rows) && Outranks(rows, kind, w, y);
    assert ahead == {} && x in behind;
    assert x in TopVals(rows, kind, 1) && y !in TopVals(rows, kind, 1);
  }

  /** Added up, b has two events and two users, a two events and one user. */
  lemma FourCombined()
    ensures CombinedTop(FourVisits(), BothMetrics(), "k") == {"b"}
    ensures KindSum(BothMetrics(), "k", RawAt(FourVisits(), "b", 0)) == 4.0
    ensures KindSum(BothMetrics(), "k", NamedAt(FourVisits(), "a", 0)) == 2.0
    ensures KindSum(BothMetrics(), "k", NamedAt(FourVisits(), "b", 0)) == 2.0
  {
    var all, qs := FourVisits(), BothMetrics();
    hide FourVisits, RawRows, Values, Total, Before, RawVal, RawTop, KindSum;
    Letters();
    FourTotals(TotalCount);
    FourTotals(UniqueUsers);
    FourTops();
    FourValues(TotalCount);
    FourValues(UniqueUsers);
    TwoSum(RawTotal(all, "a"));
    TwoSum(RawTotal(all, "b"));
    TwoSum(RawAt(all, "b", 0));
    TwoSum(NamedAt(all, "a", 0));
    TwoSum(NamedAt(all, "b", 0));
    CombinedOfTwo(all);
    assert CombinedAhead(all, qs, "k", "b", "a") && !CombinedAhead(all, qs, "k", "a", "b");
    assert (set w | w in {"a", "b"} && CombinedAhead(all, qs, "k", w, "b")) == {};
    assert "b" in set w | w in {"a", "b"} && CombinedAhead(all, qs, "k", w, "a");
  }

  lemma TwoSum(f: Query -> real)
    ensures KindSum(BothMetrics(), "k", f) == f(TopOne(TotalCount)) + f(TopOne(UniqueUsers))
  {
    var qs := BothMetrics();
    assert qs[..1][..0] == [];
    assert KindSum(qs[..1], "k", f) == f(qs[0]);
  }

  lemma CombinedOfTwo(all: seq<Event>)
    requires Values(RawRows(all, TopOne(TotalCount))) == {"a", "b"} == Values(RawRows(all, TopOne(UniqueUsers)))
    ensures CombinedValues(all, BothMetrics(), "k") == {"a", "b"}
  {
    hide RawRows, Values;
    var qs := BothMetrics();
    assert qs[..1][..0] == [];
    assert CombinedValues(all, qs[..1], "k") == {"a", "b"};
  }

  /** One event plotted by count and by users, with two countries and a limit of one: the raw path ranks the added
      totals and shows b with 4; the rollup ranks each metric alone and shows a with 2 and b with 2. */
  lemma RepeatedKindDiffers()
    ensures exists crossed, united, filled :: Answered(FourInserts(), BothMetrics(), DAY, crossed, united, filled)
    ensures forall crossed, united, filled :: Answered(FourInserts(), BothMetrics(), DAY, crossed, united, filled) ==>
      ShowsOtherValues(crossed, filled)
  {
    hide Answered;
    FourServed();
    AnswersExist(FourInserts(), BothMetrics(), DAY);
    forall crossed, united, filled | Answered(FourInserts(), BothMetrics(), DAY, crossed, united, filled)
      ensures ShowsOtherValues(crossed, filled)
    {
      FourShown(crossed, united, filled);
    }
  }

  ghost predicate ShowsOtherValues(crossed: seq<TrendRow>, filled: seq<TrendRow>) {
    var raw, rollup := Group(crossed, 1, 1), Group(filled, 1, 0);
    && raw.Grouped? && rollup.Grouped?
    && ValueOf(raw.series, "k", ["a"], 0) == 0.0 && ValueOf(raw.series, "k", ["b"], 0) == 4.0
    && ValueOf(rollup.series, "k", ["a"], 0) == 2.0 && ValueOf(rollup.series, "k", ["b"], 0) == 2.0
  }

  lemma FourServed()
    ensures OneRequest(BothMetrics()) && Served(FourInserts(), BothMetrics()[0], DAY)
    ensures NoLiteralScanned(Inserted(FourInserts()), BothMetrics())
  {
    FourInserted();
    Letters();
    assert "a"[0] != OTHERS[0] && "b"[0] != OTHERS[0];
  }

  lemma FourFacts()
    ensures Inserted(FourInserts()) == FourVisits() && "a" != OTHERS && "b" != OTHERS && "a" != "b"
    ensures |BothMetrics()| == 2 && BothMetrics()[0].kind == "k" && TopLimit(BothMetrics()[0]) == 1
    ensures BothMetrics()[0].breakdown.Some?
  {
    FourInserted();
    assert "a"[0] != OTHERS[0] && "b"[0] != OTHERS[0] && "a"[0] != "b"[0];
  }

  lemma FourShown(crossed: seq<TrendRow>, united: seq<TrendRow>, filled: seq<TrendRow>)
    requires Answered(FourInserts(), BothMetrics(), DAY, crossed, united, filled)
    ensures ShowsOtherValues(crossed, filled)
  {
    hide FourInserts, FourVisits, BothMetrics, Inserted, Stored, Served, NoLiteralScanned, CrossJoined, United, KindSum,
      Group, ValueOf, ZeroFill.Filled, Shown, CombinedTop, Best, ScannedValues, Before, RawAt, NamedAt, LeftAt,
      TopLimit, EntriesOf, FoldedKeys, KindAt, OneRequest;
    var ops, qs := FourInserts(), BothMetrics();
    FourFacts();
    FourCombined();
    CrossedValue(crossed, Inserted(ops), qs, 0, "a", 0);
    CrossedValue(crossed, Inserted(ops), qs, 0, "b", 0);
    UnitedValue(united, filled, ops, qs, DAY, "k", "a", 0);
    UnitedValue(united, filled, ops, qs, DAY, "k", "b", 0);
  }
}
