/** The top-K query answered from the rollup against the same query over raw events. */
module TopKRollup {
  import opened Basics
  import opened WindowGuard
  import opened RollupStore
  import Trends = RollupTrends
  import TopK

  /** What is ranked: the values of a materialized property, or the event kinds. */
  datatype Dimension = Property(dim: Dim) | EventKind

  /** An eligible top-K request; the scope may name one kind. */
  datatype Query = Query(dimension: Dimension, metric: Trends.Metric, scope: Option<string>, includeCookieless: bool,
                         includeBots: bool, limit: nat, from: int, to: int)

  const DEFAULT_LIMIT := 10

  function Limit(q: Query): nat { if q.limit == 0 then DEFAULT_LIMIT else q.limit }

  function DimName(q: Query): Dim { if q.dimension.EventKind? then EveryEvent else q.dimension.dim }

  predicate Admits(q: Query, kind: string, cookieless: bool, bot: bool) {
    && (q.scope.Some? ==> kind == q.scope.value)
    && (!q.includeCookieless && !q.metric.TotalCount? ==> !cookieless)
    && (!q.includeBots ==> !bot)
  }

  // ----- the two tables

  predicate RawSelects(q: Query, e: Event) {
    q.from <= e.occur < q.to && Admits(q, e.kind, Cookieless(e.distinctId), e.bot)
  }

  predicate RollupSelects(q: Query, key: Key) {
    var (lo, hi) := RollupDayBounds(q.from, q.to);
    key.dimName == DimName(q) && lo <= key.day <= hi && Admits(q, key.kind, key.cookieless, key.bot)
  }

  function RawDim(q: Query): Event -> string {
    (e: Event) => if q.dimension.EventKind? then e.kind else DimValue(e, q.dimension.dim)
  }

  function KeyDim(q: Query, key: Key): string { if q.dimension.EventKind? then key.kind else key.dimValue }

  function RollupDim(q: Query): Row -> string { (r: Row) => KeyDim(q, r.key) }

  function AnyEvent(): Event -> bool { e => true }

  function AnyKey(): Key -> bool { key => true }

  function RawMetric(q: Query): seq<Event> -> real {
    rows => Trends.Value(q.metric, Count(rows, AnyEvent()), Uniq(rows, AnyEvent()))
  }

  function RollupMetric(q: Query): seq<Row> -> real {
    rows => Trends.Value(q.metric, SumCnt(rows, AnyKey()), UniqMerge(rows, AnyKey()))
  }

  function Selected(q: Query): Event -> bool { e => RawSelects(q, e) }

  function Scanned(q: Query): Row -> bool { (r: Row) => RollupSelects(q, r.key) }

  function RawTable(events: seq<Event>, q: Query): seq<Event> { Where(events, Selected(q)) }

  function RollupTable(table: Table, q: Query): Table { Where(table, Scanned(q)) }

  // ----- when two ranked tables give one answer

  /** The metric over the rows whose dimension passes a test. */
  function Over<T>(table: seq<T>, dim: T -> string, metric: seq<T> -> real, c: string -> bool): real {
    metric(Where(table, Passes(dim, c)))
  }

  function Passes<T>(dim: T -> string, c: string -> bool): T -> bool { r => c(dim(r)) }

  ghost predicate Present<T>(table: seq<T>, dim: T -> string, v: string) { exists r :: r in table && dim(r) == v }

  ghost predicate Alike<T, U>(a: seq<T>, dimA: T -> string, metricA: seq<T> -> real,
                              b: seq<U>, dimB: U -> string, metricB: seq<U> -> real) {
    && (forall v :: Present(a, dimA, v) <==> Present(b, dimB, v))
    && (forall c: string -> bool :: Over(a, dimA, metricA, c) == Over(b, dimB, metricB, c))
  }

  lemma GroupIsOver<T>(table: seq<T>, dim: T -> string, metric: seq<T> -> real, v: string)
    ensures TopK.GroupRow(table, dim, metric, v) == TopK.Out(v, false, Over(table, dim, metric, Is(v)))
  {
    TopK.WhereAgrees(table, (r: T) => dim(r) == v, Passes(dim, Is(v)));
  }

  function Is(v: string): string -> bool { x => x == v }

  ghost function InBucket(top: set<string>, b: (string, bool)): string -> bool { x => TopK.Bucket(top, x) == b }

  lemma BucketIsOver<T>(table: seq<T>, dim: T -> string, metric: seq<T> -> real, top: set<string>, b: (string, bool))
    ensures TopK.BucketRow(table, dim, metric, top, b) == TopK.Out(b.0, b.1, Over(table, dim, metric, InBucket(top, b)))
  {
    TopK.WhereAgrees(table, (r: T) => TopK.Bucket(top, dim(r)) == b, Passes(dim, InBucket(top, b)));
  }

  lemma SameRanking<T, U>(a: seq<T>, dimA: T -> string, metricA: seq<T> -> real,
                          b: seq<U>, dimB: U -> string, metricB: seq<U> -> real)
    requires Alike(a, dimA, metricA, b, dimB, metricB)
    ensures TopK.RankedGroups(a, dimA, metricA) == TopK.RankedGroups(b, dimB, metricB)
  {
    var s, t := set r | r in a :: TopK.GroupRow(a, dimA, metricA, dimA(r)),
                set r | r in b :: TopK.GroupRow(b, dimB, metricB, dimB(r));
    forall x ensures x in s <==> x in t {
      GroupIsOver(a, dimA, metricA, x.dim);
      GroupIsOver(b, dimB, metricB, x.dim);
      assert Present(a, dimA, x.dim) <==> Present(b, dimB, x.dim);
    }
    assert s == t;
  }

  lemma SameAnswers<T, U>(a: seq<T>, dimA: T -> string, metricA: seq<T> -> real,
                          b: seq<U>, dimB: U -> string, metricB: seq<U> -> real, limit: nat)
    requires Alike(a, dimA, metricA, b, dimB, metricB)
    ensures TopK.OmitOthers(a, dimA, metricA, limit) == TopK.OmitOthers(b, dimB, metricB, limit)
    ensures TopK.WithOthers(a, dimA, metricA, limit) == TopK.WithOthers(b, dimB, metricB, limit)
  {
    SameRanking(a, dimA, metricA, b, dimB, metricB);
    var top := TopK.TopVals(a, dimA, metricA, limit);
    assert top == TopK.TopVals(b, dimB, metricB, limit);
    var s, t := set r | r in a :: TopK.BucketRow(a, dimA, metricA, top, TopK.Bucket(top, dimA(r))),
                set r | r in b :: TopK.BucketRow(b, dimB, metricB, top, TopK.Bucket(top, dimB(r)));
    BucketsIn(a, dimA, metricA, b, dimB, metricB, top);
    BucketsIn(b, dimB, metricB, a, dimA, metricA, top);
    forall x ensures x in s <==> x in t {
      assert x in s <==> HasBucket(a, dimA, metricA, top, x);
      assert x in t <==> HasBucket(b, dimB, metricB, top, x);
    }
    assert s == t;
  }

  ghost predicate HasBucket<T>(table: seq<T>, dim: T -> string, metric: seq<T> -> real, top: set<string>,
                               x: TopK.Out) {
    exists r :: r in table && x == TopK.BucketRow(table, dim, metric, top, TopK.Bucket(top, dim(r)))
  }

  lemma BucketsIn<T, U>(a: seq<T>, dimA: T -> string, metricA: seq<T> -> real,
                        b: seq<U>, dimB: U -> string, metricB: seq<U> -> real, top: set<string>)
    requires Alike(a, dimA, metricA, b, dimB, metricB)
    ensures forall x :: HasBucket(a, dimA, metricA, top, x) ==> HasBucket(b, dimB, metricB, top, x)
  {
    forall x | HasBucket(a, dimA, metricA, top, x) ensures HasBucket(b, dimB, metricB, top, x) {
      var r :| r in a && x == TopK.BucketRow(a, dimA, metricA, top, TopK.Bucket(top, dimA(r)));
      assert Present(a, dimA, dimA(r));
      assert Present(b, dimB, dimA(r));
      var u :| u in b && dimB(u) == dimA(r);
      BucketIsOver(a, dimA, metricA, top, TopK.Bucket(top, dimA(r)));
      BucketIsOver(b, dimB, metricB, top, TopK.Bucket(top, dimA(r)));
    }
  }

  // ----- the metric over a selection

  lemma {:induction false} WhereTwice<T>(table: seq<T>, p: T -> bool, p': T -> bool, both: T -> bool)
    requires forall r :: r in table ==> both(r) == (p(r) && p'(r))
    ensures Where(Where(table, p), p') == Where(table, both)
  {
    if table != [] {
      var r, rest := table[0], table[1..];
      WhereTwice(rest, p, p', both);
      if p(r) {
        var front := [r] + Where(rest, p);
        assert Where(table, p) == front && front[0] == r && front[1..] == Where(rest, p);
      } else {
        assert Where(table, p) == Where(rest, p);
      }
    }
  }

  lemma {:induction false} StoredOver(table: Table, p: Row -> bool, k: Key -> bool)
    requires forall r :: r in table ==> p(r) == k(r.key)
    ensures SumCnt(Where(table, p), AnyKey()) == SumCnt(table, k)
    ensures UniqMerge(Where(table, p), AnyKey()) == UniqMerge(table, k)
  {
    if table != [] {
      var rest := Where(table[1..], p);
      StoredOver(table[1..], p, k);
      assert ([table[0]] + rest)[1..] == rest;
      assert Where(table, p) == if p(table[0]) then [table[0]] + rest else rest;
    }
  }

  lemma {:induction false} CountedOver(events: seq<Event>, p: Event -> bool)
    ensures Count(Where(events, p), AnyEvent()) == Count(events, p)
    ensures Uniq(Where(events, p), AnyEvent()) == Uniq(events, p)
  {
    if events != [] {
      var front, e := events[..|events| - 1], events[|events| - 1];
      CountedOver(front, p);
      WhereSnoc(front, e, p);
      assert events == front + [e];
      if p(e) {
        CountSnoc(Where(front, p), e, AnyEvent());
      } else {
        assert Where(events, p) == Where(front, p);
      }
    }
  }

  lemma {:induction false} WhereSnoc<T>(front: seq<T>, r: T, p: T -> bool)
    ensures Where(front + [r], p) == Where(front, p) + if p(r) then [r] else []
  {
    var all, last := front + [r], if p(r) then [r] else [];
    if front == [] {
      assert all == [r] && all[1..] == [];
    } else {
      var head := if p(front[0]) then [front[0]] else [];
      WhereSnoc(front[1..], r, p);
      assert all[0] == front[0] && all[1..] == front[1..] + [r];
      assert Where(all, p) == head + (Where(front[1..], p) + last);
      assert Where(front, p) == head + Where(front[1..], p);
    }
  }

  // ----- the rollup against the events

  /** All events were there before `now`, and the window passed the guard. */
  ghost predicate Served(ops: seq<Op>, q: Query, now: int) {
    && RollupWindowAligned(q.from, q.to, now)
    && forall e :: e in Inserted(ops) ==> e.occur < now
  }

  function KeysWith(q: Query, c: string -> bool): Key -> bool { key => RollupSelects(q, key) && c(KeyDim(q, key)) }

  function EventsWith(q: Query, c: string -> bool): Event -> bool { e => RawSelects(q, e) && c(RawDim(q)(e)) }

  lemma SameSelection(q: Query, e: Event, c: string -> bool, now: int)
    requires RollupWindowAligned(q.from, q.to, now) && e.occur < now
    ensures KeysWith(q, c)(KeyFor(e, DimName(q))) == EventsWith(q, c)(e)
  {
    hide RollupWindowAligned, Cookieless, Admits, DimValue;
    AlignedIsWindow(q.from, q.to, now, e.occur);
    var key := KeyFor(e, DimName(q));
    assert KeyDim(q, key) == RawDim(q)(e);
    assert RollupSelects(q, key) == RawSelects(q, e);
  }

  lemma SameCounts(ops: seq<Op>, q: Query, now: int, c: string -> bool)
    requires Served(ops, q, now)
    ensures SumCnt(Stored(ops), KeysWith(q, c)) == Count(Inserted(ops), EventsWith(q, c))
    ensures UniqMerge(Stored(ops), KeysWith(q, c)) == Uniq(Inserted(ops), EventsWith(q, c))
  {
    hide RawSelects, KeyDim, RawDim, DimValue, RollupWindowAligned, Stored, Inserted;
    forall key | KeysWith(q, c)(key) ensures key.dimName == DimName(q) { assert RollupSelects(q, key); }
    RollupIsFaithful(ops, KeysWith(q, c), DimName(q));
    forall e | e in Inserted(ops) ensures OnEvents(KeysWith(q, c), DimName(q))(e) == EventsWith(q, c)(e) {
      SameSelection(q, e, c, now);
    }
    Trends.CountAgrees(Inserted(ops), OnEvents(KeysWith(q, c), DimName(q)), EventsWith(q, c));
  }

  lemma RawOver(events: seq<Event>, q: Query, c: string -> bool)
    ensures Over(RawTable(events, q), RawDim(q), RawMetric(q), c) ==
      Trends.Value(q.metric, Count(events, EventsWith(q, c)), Uniq(events, EventsWith(q, c)))
  {
    hide RawSelects, RawDim, Trends.Value, Where, Count, Uniq;
    WhereTwice(events, Selected(q), Passes(RawDim(q), c), EventsWith(q, c));
    CountedOver(events, EventsWith(q, c));
  }

  lemma RollupOver(table: Table, q: Query, c: string -> bool)
    ensures Over(RollupTable(table, q), RollupDim(q), RollupMetric(q), c) ==
      Trends.Value(q.metric, SumCnt(table, KeysWith(q, c)), UniqMerge(table, KeysWith(q, c)))
  {
    hide RollupSelects, KeyDim, Trends.Value, Where, SumCnt, UniqMerge;
    forall r: Row ensures RowsWith(q, c)(r) == (Scanned(q)(r) && Passes(RollupDim(q), c)(r)) {
      RowPasses(q, c, r);
    }
    WhereTwice(table, Scanned(q), Passes(RollupDim(q), c), RowsWith(q, c));
    StoredOver(table, RowsWith(q, c), KeysWith(q, c));
  }

  lemma RowPasses(q: Query, c: string -> bool, r: Row)
    ensures RowsWith(q, c)(r) == (Scanned(q)(r) && Passes(RollupDim(q), c)(r))
  {
    assert RollupDim(q)(r) == KeyDim(q, r.key);
    assert Passes(RollupDim(q), c)(r) == c(RollupDim(q)(r));
    assert KeysWith(q, c)(r.key) == (RollupSelects(q, r.key) && c(KeyDim(q, r.key)));
    assert RowsWith(q, c)(r) == KeysWith(q, c)(r.key);
    assert Scanned(q)(r) == RollupSelects(q, r.key);
  }

  function RowsWith(q: Query, c: string -> bool): Row -> bool { (r: Row) => KeysWith(q, c)(r.key) }

  lemma RawPresent(events: seq<Event>, q: Query, v: string)
    ensures Present(RawTable(events, q), RawDim(q), v) <==> Count(events, EventsWith(q, Is(v))) > 0
  {
    hide RawSelects, RawDim;
    WhereHas(events, Selected(q));
    Trends.CountPositive(events, EventsWith(q, Is(v)));
  }

  lemma RollupPresent(ops: seq<Op>, q: Query, v: string)
    ensures Present(RollupTable(Stored(ops), q), RollupDim(q), v) <==>
      SumCnt(Stored(ops), KeysWith(q, Is(v))) > 0
  {
    hide RollupSelects, KeyDim, Stored;
    WhereHas(Stored(ops), Scanned(q));
    Trends.StoredIsPopulated(ops);
    Trends.SumPositive(Stored(ops), KeysWith(q, Is(v)));
  }

  /** The top-K answer from the rollup is the answer over raw events, with and without `$others`, for any ingestion and
      merge history, any dimension, scope, metric and limit. */
  lemma TopKRefinesRaw(ops: seq<Op>, q: Query, now: int)
    requires Served(ops, q, now)
    ensures var table, events := RollupTable(Stored(ops), q), RawTable(Inserted(ops), q);
      && TopK.OmitOthers(table, RollupDim(q), RollupMetric(q), Limit(q)) ==
         TopK.OmitOthers(events, RawDim(q), RawMetric(q), Limit(q))
      && TopK.WithOthers(table, RollupDim(q), RollupMetric(q), Limit(q)) ==
         TopK.WithOthers(events, RawDim(q), RawMetric(q), Limit(q))
  {
    hide RollupTable, RawTable, RollupDim, RawDim, RollupMetric, RawMetric, Served, Over, Present, Stored, Inserted;
    var table, events := RollupTable(Stored(ops), q), RawTable(Inserted(ops), q);
    forall v ensures Present(table, RollupDim(q), v) <==> Present(events, RawDim(q), v) {
      RollupPresent(ops, q, v);
      RawPresent(Inserted(ops), q, v);
      SameCounts(ops, q, now, Is(v));
    }
    forall c: string -> bool
      ensures Over(table, RollupDim(q), RollupMetric(q), c) == Over(events, RawDim(q), RawMetric(q), c)
    {
      RollupOver(Stored(ops), q, c);
      RawOver(Inserted(ops), q, c);
      SameCounts(ops, q, now, c);
    }
    SameAnswers(table, RollupDim(q), RollupMetric(q), events, RawDim(q), RawMetric(q), Limit(q));
  }
}
