/** What the numbers mean that both paths agree on: which events a value counts, in which bucket, and in which order a
    top-K answer lists them. Nothing here names the selections of RollupTrends and TopKRollup. */
module RollupMeaning {
  import opened Basics
  import opened Breakdowns
  import opened Calendar
  import opened RollupStore
  import opened RollupTrends
  import TopK
  import TopKRollup

  // ----- counting by position

  ghost function Chosen(events: seq<Event>, p: Event -> bool): set<int> { set i | 0 <= i < |events| && p(events[i]) }

  ghost function IdsAt(events: seq<Event>, chosen: set<int>): set<string>
    requires forall i :: i in chosen ==> 0 <= i < |events|
  {
    set i | i in chosen :: events[i].distinctId
  }

  lemma {:induction false} CountIsSize(events: seq<Event>, p: Event -> bool)
    ensures Count(events, p) == |Chosen(events, p)|
    ensures Uniq(events, p) == IdsAt(events, Chosen(events, p))
  {
    if events == [] {
      assert Chosen(events, p) == {};
    } else {
      CountIsSize(events[..|events| - 1], p);
      ChosenSnoc(events, p);
    }
  }

  lemma ChosenSnoc(events: seq<Event>, p: Event -> bool)
    requires events != []
    ensures var n := |events| - 1;
      var front := Chosen(events[..n], p);
      && |Chosen(events, p)| == |front| + (if p(events[n]) then 1 else 0)
      && IdsAt(events, Chosen(events, p)) ==
         IdsAt(events[..n], front) + if p(events[n]) then {events[n].distinctId} else {}
  {
    hide IdsAt;
    var n := |events| - 1;
    var front, all := Chosen(events[..n], p), Chosen(events, p);
    forall i ensures i in all <==> i in front || (i == n && p(events[n])) {
      if 0 <= i < n { assert events[..n][i] == events[i]; }
    }
    assert all == front + if p(events[n]) then {n} else {};
    assert n !in front;
    SameIds(events, front);
    if p(events[n]) { OneMoreId(events, front, n); }
  }

  lemma SameIds(events: seq<Event>, front: set<int>)
    requires events != [] && forall i :: i in front ==> 0 <= i < |events| - 1
    ensures IdsAt(events, front) == IdsAt(events[..|events| - 1], front)
  {
    assert forall i :: i in front ==> events[..|events| - 1][i] == events[i];
  }

  lemma OneMoreId(events: seq<Event>, front: set<int>, n: int)
    requires 0 <= n < |events| && forall i :: i in front ==> 0 <= i < |events|
    ensures IdsAt(events, front + {n}) == IdsAt(events, front) + {events[n].distinctId}
  {
    assert n in front + {n};
    assert forall i :: i in front ==> i in front + {n};
  }

  /** A value is the number of events, the number of users, or their quotient, and zero where there is no user. */
  ghost predicate Measures(m: Metric, value: real, events: seq<Event>, chosen: set<int>)
    requires forall i :: i in chosen ==> 0 <= i < |events|
  {
    var users := |IdsAt(events, chosen)|;
    match m
    case TotalCount => value == |chosen| as real
    case UniqueUsers => value == users as real
    case PerUserAvg => value * users as real == |chosen| as real && (users == 0 ==> value == 0.0)
  }

  lemma ValueMeasures(m: Metric, events: seq<Event>, p: Event -> bool)
    ensures Measures(m, Value(m, Count(events, p), Uniq(events, p)), events, Chosen(events, p))
  {
    CountIsSize(events, p);
    CountPositive(events, p);
    hide Count, Uniq, Chosen, IdsAt;
    var cnt, ids := Count(events, p), Uniq(events, p);
    if ids != {} {
      assert |ids| > 0;
      Quotient(cnt as real, |ids| as real);
    }
  }

  lemma Quotient(a: real, b: real)
    requires b > 0.0
    ensures a / b * b == a
  {
  }

  // ----- trends

  /** The instant lies in the window, and bots count only when they are asked for. A count counts all ids; people are
      counted without cookieless ids unless these are readmitted. */
  predicate Eligible(e: Event, from: int, to: int, bots: bool, cookieless: bool, m: Metric) {
    && from <= e.occur < to
    && (e.bot ==> bots)
    && ("cookieless-" <= e.distinctId ==> cookieless || m == TotalCount)
  }

  /** The event's value of the property; none without a breakdown. */
  function PropertyOf(e: Event, breakdown: Option<Dim>): string {
    if breakdown.Some? && breakdown.value != EveryEvent && breakdown.value in e.props then e.props[breakdown.value]
      else ""
  }

  lemma InMeans(q: Query, c: Cells, e: Event)
    ensures RawIn(q, c)(e) <==>
      e.kind == q.kind && Eligible(e, q.from, q.to, q.includeBots, q.includeCookieless, q.metric) &&
      c(Bucket(q.granularity, e.occur / 86_400_000_000_000), PropertyOf(e, q.breakdown))
  {
    hide Bucket;
    assert DimValue(e, DimOf(q)) == PropertyOf(e, q.breakdown);
    assert RawIn(q, c)(e) <==> RawSelects(q, e) && c(Bucket(q.granularity, DayOf(e.occur)), DimValue(e, DimOf(q)));
  }

  /** Over any set of cells a trend's value measures exactly the eligible events of its kind in them. */
  lemma TrendMeans(events: seq<Event>, q: Query, c: Cells)
    ensures var chosen := set i | 0 <= i < |events| && events[i].kind == q.kind &&
        Eligible(events[i], q.from, q.to, q.includeBots, q.includeCookieless, q.metric) &&
        c(Bucket(q.granularity, events[i].occur / 86_400_000_000_000), PropertyOf(events[i], q.breakdown));
      Measures(q.metric, RawValue(events, q, c), events, chosen)
  {
    hide Bucket, RawIn, Eligible, PropertyOf;
    var p := RawIn(q, c);
    ValueMeasures(q.metric, events, p);
    forall i | 0 <= i < |events| { InMeans(q, c, events[i]); }
    assert Chosen(events, p) == set i | 0 <= i < |events| && events[i].kind == q.kind &&
      Eligible(events[i], q.from, q.to, q.includeBots, q.includeCookieless, q.metric) &&
      c(Bucket(q.granularity, events[i].occur / 86_400_000_000_000), PropertyOf(events[i], q.breakdown));
  }

  /** A segmentation's number measures the eligible events of its kinds. */
  lemma SegmentMeans(events: seq<Event>, q: Query, kinds: set<string>)
    ensures var p := (e: Event) => SegmentAdmits(q, kinds, e);
      var chosen := set i | 0 <= i < |events| && events[i].kind in kinds &&
        Eligible(events[i], q.from, q.to, q.includeBots, q.includeCookieless, q.metric);
      Measures(q.metric, Value(q.metric, Count(events, p), Uniq(events, p)), events, chosen)
  {
    var p := (e: Event) => SegmentAdmits(q, kinds, e);
    ValueMeasures(q.metric, events, p);
    assert Chosen(events, p) == set i | 0 <= i < |events| && events[i].kind in kinds &&
      Eligible(events[i], q.from, q.to, q.includeBots, q.includeCookieless, q.metric);
  }

  /** The rollup reads the same numbers for a request it serves. */
  lemma RollupMeans(ops: seq<Op>, q: Query, now: int, c: Cells)
    requires Served(ops, q, now)
    ensures var events := Inserted(ops);
      var chosen := set i | 0 <= i < |events| && events[i].kind == q.kind &&
        Eligible(events[i], q.from, q.to, q.includeBots, q.includeCookieless, q.metric) &&
        c(Bucket(q.granularity, events[i].occur / 86_400_000_000_000), PropertyOf(events[i], q.breakdown));
      Measures(q.metric, RollupValue(Stored(ops), q, c), events, chosen)
  {
    hide Bucket, RawValue, RollupValue;
    SameValue(ops, q, now, c);
    TrendMeans(Inserted(ops), q, c);
  }

  // ----- buckets

  /** A week begins on the last Sunday not after the day; 4 January 1970 was one. */
  lemma WeekMeans(day: int)
    ensures var b := Bucket(Weekly, day); b <= day < b + 7 && (b - 3) % 7 == 0
    ensures Bucket(Daily, day) == day
  {
  }

  /** A month begins on the last first-of-month of the civil calendar that is not after the day. */
  lemma MonthMeans(day: int) returns (m: int)
    ensures Bucket(Monthly, day) == CivilFirst(1970 + m / 12, m % 12 + 1)
    ensures CivilFirst(1970 + m / 12, m % 12 + 1) <= day < CivilFirst(1970 + (m + 1) / 12, (m + 1) % 12 + 1)
  {
    hide CivilFirst;
    m := MonthOf(day);
    MonthOfIsCivil(day, m);
    MonthStartIsCivil(m);
  }

  /** Ten values are named when a request sets no limit. */
  lemma DefaultLimits(q: Query, k: TopKRollup.Query)
    ensures TopLimit(q) == if q.limit == 0 then 10 else q.limit
    ensures TopKRollup.Limit(k) == if k.limit == 0 then 10 else k.limit
  {
  }

  // ----- top-K

  /** The event counts for the request: it is eligible, and of the kind the scope names, if it names one. */
  predicate InScope(e: Event, q: TopKRollup.Query) {
    (q.scope.Some? ==> e.kind == q.scope.value) &&
    Eligible(e, q.from, q.to, q.includeBots, q.includeCookieless, q.metric)
  }

  /** What the request ranks: the kind of an event, or its value of a property. */
  function RankedBy(e: Event, q: TopKRollup.Query): string {
    match q.dimension
    case EventKind => e.kind
    case Property(dim) => PropertyOf(e, Some(dim))
  }

  lemma WithMeans(q: TopKRollup.Query, c: string -> bool, e: Event)
    ensures TopKRollup.EventsWith(q, c)(e) <==> InScope(e, q) && c(RankedBy(e, q))
  {
    assert TopKRollup.RawDim(q)(e) == RankedBy(e, q);
    assert TopKRollup.RawSelects(q, e) <==> InScope(e, q);
  }

  /** Each row of the answer measures the events in scope that have its value. */
  lemma TopKMeans(events: seq<Event>, q: TopKRollup.Query, x: TopK.Out)
    requires x in TopK.OmitOthers(TopKRollup.RawTable(events, q), TopKRollup.RawDim(q), TopKRollup.RawMetric(q),
                                  TopKRollup.Limit(q))
    ensures var chosen := set i | 0 <= i < |events| && InScope(events[i], q) && RankedBy(events[i], q) == x.dim;
      Measures(q.metric, x.value, events, chosen)
  {
    hide InScope, RankedBy, TopKRollup.RawTable, TopKRollup.RawDim, TopKRollup.RawMetric, TopKRollup.EventsWith;
    var table, dim, metric := TopKRollup.RawTable(events, q), TopKRollup.RawDim(q), TopKRollup.RawMetric(q);
    var c := TopKRollup.Is(x.dim);
    TopK.FastRow(table, dim, metric, TopKRollup.Limit(q), x);
    TopKRollup.GroupIsOver(table, dim, metric, x.dim);
    TopKRollup.RawOver(events, q, c);
    ValueMeasures(q.metric, events, TopKRollup.EventsWith(q, c));
    forall i | 0 <= i < |events| { WithMeans(q, c, events[i]); }
    assert Chosen(events, TopKRollup.EventsWith(q, c)) ==
      set i | 0 <= i < |events| && InScope(events[i], q) && RankedBy(events[i], q) == x.dim;
  }
}
