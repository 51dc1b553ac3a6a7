/** The trends query answered from the rollup against the same query over raw events. Times of rows
    are bucket starts, in days. */
module RollupTrends {
  import opened Basics
  import opened Breakdowns
  import opened Calendar
  import opened WindowGuard
  import opened RollupStore
  import opened TrendSeries
  import opened TrendSeriesLaws

  datatype Metric = TotalCount | UniqueUsers | PerUserAvg

  datatype Granularity = Daily | Weekly | Monthly

  /** An eligible single-event trends request. */
  datatype Query = Query(kind: string, metric: Metric, breakdown: Option<Dim>, includeCookieless: bool,
                         includeBots: bool, limit: nat, granularity: Granularity, from: int, to: int)

  const DEFAULT_LIMIT := 10

  function TopLimit(q: Query): nat { if q.limit == 0 then DEFAULT_LIMIT else q.limit }

  function DimOf(q: Query): Dim { if q.breakdown.None? then EveryEvent else q.breakdown.value }

  /** toStartOfDay, toStartOfWeek (Sunday; day 0 is a Thursday) and toStartOfMonth, on UTC days. */
  function Bucket(g: Granularity, day: int): int {
    match g
    case Daily => day
    case Weekly => day - (day + 4) % 7
    case Monthly => MonthStart(MonthOf(day))
  }

  /** People-counting metrics leave cookieless ids out unless the request re-admits them. */
  predicate ExcludesCookieless(q: Query) { !q.includeCookieless && !q.metric.TotalCount? }

  predicate Admits(q: Query, cookieless: bool, bot: bool) {
    (ExcludesCookieless(q) ==> !cookieless) && (!q.includeBots ==> !bot)
  }

  predicate RawSelects(q: Query, e: Event) {
    e.kind == q.kind && q.from <= e.occur < q.to && Admits(q, Cookieless(e.distinctId), e.bot)
  }

  predicate RollupSelects(q: Query, key: Key) {
    var (lo, hi) := RollupDayBounds(q.from, q.to);
    key.dimName == DimOf(q) && key.kind == q.kind && lo <= key.day <= hi && Admits(q, key.cookieless, key.bot)
  }

  // ----- aggregation over a set of (bucket, breakdown value) cells

  type Cells = (int, string) -> bool

  function RawIn(q: Query, c: Cells): Event -> bool {
    e => RawSelects(q, e) && c(Bucket(q.granularity, DayOf(e.occur)), DimValue(e, DimOf(q)))
  }

  function RollupIn(q: Query, c: Cells): Key -> bool {
    key => RollupSelects(q, key) && c(Bucket(q.granularity, key.day), key.dimValue)
  }

  function Value(m: Metric, cnt: nat, ids: set<string>): real {
    match m
    case TotalCount => cnt as real
    case UniqueUsers => |ids| as real
    case PerUserAvg => if |ids| == 0 then 0.0 else cnt as real / |ids| as real
  }

  function RawValue(events: seq<Event>, q: Query, c: Cells): real {
    Value(q.metric, Count(events, RawIn(q, c)), Uniq(events, RawIn(q, c)))
  }

  function RollupValue(table: Table, q: Query, c: Cells): real {
    Value(q.metric, SumCnt(table, RollupIn(q, c)), UniqMerge(table, RollupIn(q, c)))
  }

  /** All events were there before `now`, and the window passed the guard. */
  ghost predicate Served(ops: seq<Op>, q: Query, now: int) {
    && RollupWindowAligned(q.from, q.to, now)
    && forall e :: e in Inserted(ops) ==> e.occur < now
  }

  lemma {:induction false} CountAgrees(events: seq<Event>, p: Event -> bool, p': Event -> bool)
    requires forall e :: e in events ==> p(e) == p'(e)
    ensures Count(events, p) == Count(events, p') && Uniq(events, p) == Uniq(events, p')
  {
    if events != [] { CountAgrees(events[..|events| - 1], p, p'); }
  }

  /** The rollup row of an event is selected exactly when the event is. */
  lemma SameSelection(q: Query, e: Event, now: int)
    requires RollupWindowAligned(q.from, q.to, now) && e.occur < now
    ensures RollupSelects(q, KeyFor(e, DimOf(q))) <==> RawSelects(q, e)
  {
    hide DayOf, RollupWindowAligned, DimValue, Cookieless;
    AlignedIsWindow(q.from, q.to, now, e.occur);
  }

  /** Any aggregate over any set of cells is the same on both paths. */
  lemma SameValue(ops: seq<Op>, q: Query, now: int, c: Cells)
    requires Served(ops, q, now)
    ensures SumCnt(Stored(ops), RollupIn(q, c)) == Count(Inserted(ops), RawIn(q, c))
    ensures RollupValue(Stored(ops), q, c) == RawValue(Inserted(ops), q, c)
  {
    var p := RollupIn(q, c);
    forall key | p(key) ensures key.dimName == DimOf(q) { assert RollupSelects(q, key); }
    RollupIsFaithful(ops, p, DimOf(q));
    forall e | e in Inserted(ops) ensures OnEvents(p, DimOf(q))(e) == RawIn(q, c)(e) {
      SameSelection(q, e, now);
    }
    CountAgrees(Inserted(ops), OnEvents(p, DimOf(q)), RawIn(q, c));
  }

  // ----- cells that occur

  function CellOf(q: Query, e: Event): (int, string) { (Bucket(q.granularity, DayOf(e.occur)), DimValue(e, DimOf(q))) }

  ghost function RawCells(events: seq<Event>, q: Query): set<(int, string)> {
    set e | e in events && RawSelects(q, e) :: CellOf(q, e)
  }

  ghost function RollupCells(table: Table, q: Query): set<(int, string)> {
    set r | r in table && RollupSelects(q, r.key) :: (Bucket(q.granularity, r.key.day), r.key.dimValue)
  }

  function Only(t: int, v: string): Cells { (t', v') => t' == t && v' == v }

  lemma {:induction false} CountPositive(events: seq<Event>, p: Event -> bool)
    ensures Count(events, p) > 0 <==> exists e :: e in events && p(e)
    ensures Count(events, p) > 0 <==> Uniq(events, p) != {}
  {
    if events != [] {
      var n := |events| - 1;
      CountPositive(events[..n], p);
      assert forall e :: e in events <==> e in events[..n] || e == events[n];
    }
  }

  ghost predicate Populated(table: Table) { forall r :: r in table ==> r.cnt > 0 }

  lemma {:induction false} FanOutPopulated(e: Event, dims: seq<Dim>)
    ensures Populated(RowsFor(e, dims))
  {
    if dims != [] { FanOutPopulated(e, dims[1..]); }
  }

  lemma {:induction false} StoredIsPopulated(ops: seq<Op>)
    ensures Populated(Stored(ops))
  {
    if ops != [] {
      var front, op := ops[..|ops| - 1], ops[|ops| - 1];
      StoredIsPopulated(front);
      if op.Ingest? { FanOutPopulated(op.e, ROLLUP_DIMS); }
    }
  }

  lemma {:induction false} SumPositive(table: Table, p: Key -> bool)
    requires Populated(table)
    ensures SumCnt(table, p) > 0 <==> exists r :: r in table && p(r.key)
  {
    if table != [] {
      SumPositive(table[1..], p);
      assert forall r :: r in table <==> r == table[0] || r in table[1..];
    }
  }

  /** The rollup groups by the cells the events fall in, neither more nor fewer. */
  lemma SameCells(ops: seq<Op>, q: Query, now: int)
    requires Served(ops, q, now)
    ensures RollupCells(Stored(ops), q) == RawCells(Inserted(ops), q)
  {
    hide SumCnt, Count, Stored, Inserted, Bucket, RollupSelects, RawSelects, DimValue;
    StoredIsPopulated(ops);
    forall t, v ensures (t, v) in RollupCells(Stored(ops), q) <==> (t, v) in RawCells(Inserted(ops), q) {
      var c := Only(t, v);
      SameValue(ops, q, now, c);
      SumPositive(Stored(ops), RollupIn(q, c));
      CountPositive(Inserted(ops), RawIn(q, c));
    }
  }

  // ----- result rows

  predicate CellBefore(a: (int, string), b: (int, string)) {
    a.0 < b.0 || (a.0 == b.0 && Before(a.1, b.1))
  }

  lemma InsertedOnce(c: (int, string), rest: seq<(int, string)>)
    requires Distinct(rest) && c !in rest
    ensures var list := Insert(c, rest, CellBefore); Distinct(list) && forall x :: x in list <==> x == c || x in rest
  {
    var list := Insert(c, rest, CellBefore);
    InsertKeeps(c, rest, CellBefore);
    assert Distinct([c] + rest);
    DistinctByMultiset(list, [c] + rest);
    SameElements(list, [c] + rest);
  }

  /** ORDER BY t, breakdown over a set of groups. */
  ghost function Listed(cells: set<(int, string)>): (list: seq<(int, string)>)
    ensures Distinct(list) && forall c :: c in list <==> c in cells
  {
    if cells == {} then []
    else
      var c :| c in cells;
      var rest := Listed(cells - {c});
      InsertedOnce(c, rest);
      Insert(c, rest, CellBefore)
  }

  function CellRows(list: seq<(int, string)>, kind: string, labelled: bool, val: (int, string) -> real): seq<TrendRow> {
    seq(|list|, i requires 0 <= i < |list| =>
      TrendRow(list[i].0, kind, if labelled then [list[i].1] else [], val(list[i].0, list[i].1)))
  }

  ghost function RawRows(events: seq<Event>, q: Query): seq<TrendRow> {
    CellRows(Listed(RawCells(events, q)), q.kind, q.breakdown.Some?, (t, v) => RawValue(events, q, Only(t, v)))
  }

  /** The top_grain CTE; without a breakdown, the whole query. */
  ghost function GrainRows(table: Table, q: Query): seq<TrendRow> {
    CellRows(Listed(RollupCells(table, q)), q.kind, q.breakdown.Some?, (t, v) => RollupValue(table, q, Only(t, v)))
  }

  /** The grain the rollup ranks by is the raw query's own result. */
  lemma SameRows(ops: seq<Op>, q: Query, now: int)
    requires Served(ops, q, now)
    ensures GrainRows(Stored(ops), q) == RawRows(Inserted(ops), q)
  {
    hide Listed, RollupCells, RawCells, RollupValue, RawValue, Served, Stored, Inserted;
    SameCells(ops, q, now);
    forall t, v ensures RollupValue(Stored(ops), q, Only(t, v)) == RawValue(Inserted(ops), q, Only(t, v)) {
      SameValue(ops, q, now, Only(t, v));
    }
    CellRowsAgree(Listed(RawCells(Inserted(ops), q)), q.kind, q.breakdown.Some?,
                  (t, v) => RollupValue(Stored(ops), q, Only(t, v)), (t, v) => RawValue(Inserted(ops), q, Only(t, v)));
  }

  lemma CellRowsAgree(list: seq<(int, string)>, kind: string, labelled: bool,
                      f: (int, string) -> real, g: (int, string) -> real)
    requires forall t, v :: f(t, v) == g(t, v)
    ensures CellRows(list, kind, labelled, f) == CellRows(list, kind, labelled, g)
  {
    forall i | 0 <= i < |list| ensures CellRows(list, kind, labelled, f)[i] == CellRows(list, kind, labelled, g)[i] {
      var t: int, v: string := list[i].0, list[i].1;
      assert f(t, v) == g(t, v);
    }
  }

  // ----- the top_vals CTE

  ghost function Values(rows: seq<TrendRow>): set<string> {
    set i | 0 <= i < |rows| && rows[i].breakdowns != [] :: rows[i].breakdowns[0]
  }

  /** sum(v) DESC, dim_value ASC. */
  predicate Outranks(rows: seq<TrendRow>, kind: string, w: string, v: string) {
    var tw, tv := TrendSeriesLaws.Total(rows, SeriesKey(kind, w)), TrendSeriesLaws.Total(rows, SeriesKey(kind, v));
    tw > tv || (tw == tv && Before(w, v))
  }

  /** LIMIT n keeps the values fewer than n others outrank. */
  ghost function TopVals(grain: seq<TrendRow>, kind: string, n: nat): set<string> {
    set v | v in Values(grain) && |set w | w in Values(grain) && Outranks(grain, kind, w, v)| < n
  }

  ghost function Label(top: set<string>, v: string): string { if v in top then v else OTHERS }

  ghost function Labelled(top: set<string>, t: int, b: string): Cells { (t', v') => t' == t && Label(top, v') == b }

  /** The main query: dim_value where it is among the top values, else `$others`. */
  ghost function MainCells(table: Table, q: Query, top: set<string>): set<(int, string)> {
    set r | r in table && RollupSelects(q, r.key) :: (Bucket(q.granularity, r.key.day), Label(top, r.key.dimValue))
  }

  ghost function MainRows(table: Table, q: Query): seq<TrendRow> {
    var top := TopVals(GrainRows(table, q), q.kind, TopLimit(q));
    CellRows(Listed(MainCells(table, q, top)), q.kind, true, (t, b) => RollupValue(table, q, Labelled(top, t, b)))
  }

  // ----- the two results

  function Arity(q: Query): nat { if q.breakdown.None? then 0 else 1 }

  ghost function RawResult(events: seq<Event>, q: Query): Outcome {
    Group(RawRows(events, q), Arity(q), TopLimit(q))
  }

  /** Bucketing has happened in SQL, so the grouping is not limited; one event kind is never zero-filled. */
  ghost function RollupResult(table: Table, q: Query): Outcome {
    Group(if q.breakdown.None? then GrainRows(table, q) else MainRows(table, q), Arity(q), 0)
  }

  /** Without a breakdown the two paths return the same series, for every metric. */
  lemma RollupRefinesRawTotals(ops: seq<Op>, q: Query, now: int)
    requires Served(ops, q, now) && q.breakdown.None?
    ensures RollupResult(Stored(ops), q) == RawResult(Inserted(ops), q)
  {
    SameRows(ops, q, now);
  }

  // ----- segmentation: one number over several event kinds

  predicate SegmentAdmits(q: Query, kinds: set<string>, e: Event) {
    e.kind in kinds && q.from <= e.occur < q.to && Admits(q, Cookieless(e.distinctId), e.bot)
  }

  function SegmentKeys(q: Query, kinds: set<string>): Key -> bool {
    var (lo, hi) := RollupDayBounds(q.from, q.to);
    (key: Key) => key.dimName.EveryEvent? && key.kind in kinds && lo <= key.day <= hi &&
      Admits(q, key.cookieless, key.bot)
  }

  /** The scalar over any set of kinds is the same on both paths, for every metric. */
  lemma SegmentationRefinesRaw(ops: seq<Op>, q: Query, now: int, kinds: set<string>)
    requires Served(ops, q, now)
    ensures var raw := (e: Event) => SegmentAdmits(q, kinds, e);
            Value(q.metric, SumCnt(Stored(ops), SegmentKeys(q, kinds)),
              UniqMerge(Stored(ops), SegmentKeys(q, kinds))) ==
            Value(q.metric, Count(Inserted(ops), raw), Uniq(Inserted(ops), raw))
  {
    var raw, p := (e: Event) => SegmentAdmits(q, kinds, e), SegmentKeys(q, kinds);
    RollupIsFaithful(ops, p, EveryEvent);
    forall e | e in Inserted(ops) ensures OnEvents(p, EveryEvent)(e) == raw(e) {
      SameSegment(q, kinds, e, now);
    }
    CountAgrees(Inserted(ops), OnEvents(p, EveryEvent), raw);
  }

  lemma SameSegment(q: Query, kinds: set<string>, e: Event, now: int)
    requires RollupWindowAligned(q.from, q.to, now) && e.occur < now
    ensures SegmentKeys(q, kinds)(KeyFor(e, EveryEvent)) == SegmentAdmits(q, kinds, e)
  {
    hide DayOf, RollupWindowAligned, DimValue, Cookieless;
    AlignedIsWindow(q.from, q.to, now, e.occur);
  }
}
