/** The daily rollup as stored: rows keyed by day, dimension, value, kind and traffic class, fed by
    inserts and reshuffled by background merges that add counts and unite id sets. */
module RollupStore {
  import opened Basics
  import opened Calendar

  const ID_PREFIX := "cookieless-"
  /** The synthetic `$__total__` dimension and the auto-properties of migrations 006 and 009. */
  datatype Dim =
    | EveryEvent | Country | Region | City | Os | Browser | Device | Platform
    | UtmSource | UtmMedium | UtmCampaign
    | Pathname | Hostname | ReferrerDomain | Channel | Locale
    | ScreenSize | UtmTerm | UtmContent | BrowserVersion | OsVersion

  const ROLLUP_DIMS := [
    EveryEvent, Country, Region, City, Os, Browser, Device, Platform, UtmSource, UtmMedium, UtmCampaign,
    Pathname, Hostname, ReferrerDomain, Channel, Locale, ScreenSize, UtmTerm, UtmContent, BrowserVersion, OsVersion]

  function Position(d: Dim): nat {
    match d
    case EveryEvent => 0 case Country => 1 case Region => 2 case City => 3 case Os => 4 case Browser => 5
    case Device => 6 case Platform => 7 case UtmSource => 8 case UtmMedium => 9 case UtmCampaign => 10
    case Pathname => 11 case Hostname => 12 case ReferrerDomain => 13 case Channel => 14 case Locale => 15
    case ScreenSize => 16 case UtmTerm => 17 case UtmContent => 18 case BrowserVersion => 19 case OsVersion => 20
  }

  /** Every dimension is stored, once. */
  lemma EachDimOnce(d: Dim, i: nat)
    ensures Position(d) < |ROLLUP_DIMS| && ROLLUP_DIMS[Position(d)] == d
    ensures i < |ROLLUP_DIMS| ==> Position(ROLLUP_DIMS[i]) == i
  {
  }

  /** Instants are nanoseconds; an absent property reads as the empty string. */
  datatype Event = Event(occur: int, kind: string, distinctId: string, props: map<Dim, string>, bot: bool)

  predicate Cookieless(distinctId: string) { ID_PREFIX <= distinctId }

  function DimValue(e: Event, dim: Dim): string {
    if dim.EveryEvent? then "" else if dim in e.props then e.props[dim] else ""
  }

  datatype Key = Key(day: int, dimName: Dim, dimValue: string, kind: string, cookieless: bool, bot: bool)

  datatype Row = Row(key: Key, cnt: nat, ids: set<string>)

  type Table = seq<Row>

  function KeyFor(e: Event, dim: Dim): Key {
    Key(DayOf(e.occur), dim, DimValue(e, dim), e.kind, Cookieless(e.distinctId), e.bot)
  }

  /** ARRAY JOIN: one row per dimension. */
  function RowsFor(e: Event, dims: seq<Dim>): Table {
    if dims == [] then [] else [Row(KeyFor(e, dims[0]), 1, {e.distinctId})] + RowsFor(e, dims[1..])
  }

  datatype Op = Ingest(e: Event) | Merge(i: nat, j: nat)

  /** A merge needs two distinct rows of one key; anything else leaves the table alone. */
  function Apply(table: Table, op: Op): Table {
    match op
    case Ingest(e) => table + RowsFor(e, ROLLUP_DIMS)
    case Merge(i, j) =>
      if i < j < |table| && table[i].key == table[j].key then
        table[..i] + [Row(table[i].key, table[i].cnt + table[j].cnt, table[i].ids + table[j].ids)]
        + table[i + 1..j] + table[j + 1..]
      else table
  }

  /** The table after a history of inserts and merges, and the events inserted. */
  function Stored(ops: seq<Op>): Table {
    if ops == [] then [] else Apply(Stored(ops[..|ops| - 1]), ops[|ops| - 1])
  }

  function Inserted(ops: seq<Op>): seq<Event> {
    if ops == [] then []
    else
      var front, last := Inserted(ops[..|ops| - 1]), ops[|ops| - 1];
      if last.Ingest? then front + [last.e] else front
  }

  // ----- what a query reads: sum(cnt) and uniqMerge(uniq_state) over the rows it selects

  function SumCnt(table: Table, p: Key -> bool): nat {
    if table == [] then 0 else (if p(table[0].key) then table[0].cnt else 0) + SumCnt(table[1..], p)
  }

  function UniqMerge(table: Table, p: Key -> bool): set<string> {
    if table == [] then {} else (if p(table[0].key) then table[0].ids else {}) + UniqMerge(table[1..], p)
  }

  // ----- and what it stands for: count and distinct ids over the events

  function Count(events: seq<Event>, p: Event -> bool): nat {
    if events == [] then 0 else Count(events[..|events| - 1], p) + if p(events[|events| - 1]) then 1 else 0
  }

  function Uniq(events: seq<Event>, p: Event -> bool): set<string> {
    if events == [] then {}
    else Uniq(events[..|events| - 1], p) + if p(events[|events| - 1]) then {events[|events| - 1].distinctId} else {}
  }

  lemma {:induction false} SumCntAppend(a: Table, b: Table, p: Key -> bool)
    ensures SumCnt(a + b, p) == SumCnt(a, p) + SumCnt(b, p)
    ensures UniqMerge(a + b, p) == UniqMerge(a, p) + UniqMerge(b, p)
  {
    if a == [] {
      assert a + b == b;
    } else {
      assert (a + b)[1..] == a[1..] + b;
      SumCntAppend(a[1..], b, p);
    }
  }

  lemma FiveParts(a: Table, x: Row, b: Table, y: Row, c: Table, p: Key -> bool)
    ensures SumCnt(a + ([x] + (b + ([y] + c))), p) ==
      SumCnt(a, p) + SumCnt([x], p) + SumCnt(b, p) + SumCnt([y], p) + SumCnt(c, p)
    ensures UniqMerge(a + ([x] + (b + ([y] + c))), p) ==
      UniqMerge(a, p) + UniqMerge([x], p) + UniqMerge(b, p) + UniqMerge([y], p) + UniqMerge(c, p)
  {
    hide SumCnt, UniqMerge;
    SumCntAppend(a, [x] + (b + ([y] + c)), p);
    SumCntAppend([x], b + ([y] + c), p);
    SumCntAppend(b, [y] + c, p);
    SumCntAppend([y], c, p);
  }

  /** Background merges change no query. */
  lemma MergeIsInvisible(table: Table, i: nat, j: nat, p: Key -> bool)
    ensures SumCnt(Apply(table, Merge(i, j)), p) == SumCnt(table, p)
    ensures UniqMerge(Apply(table, Merge(i, j)), p) == UniqMerge(table, p)
  {
    hide SumCnt, UniqMerge;
    if i < j < |table| && table[i].key == table[j].key {
      var a, b, c := table[..i], table[i + 1..j], table[j + 1..];
      var x, y := table[i], table[j];
      var m := Row(x.key, x.cnt + y.cnt, x.ids + y.ids);
      assert table == a + ([x] + (b + ([y] + c)));
      assert Apply(table, Merge(i, j)) == a + ([m] + (b + c));
      FiveParts(a, x, b, y, c, p);
      SumCntAppend(a, [m] + (b + c), p);
      SumCntAppend([m], b + c, p);
      SumCntAppend(b, c, p);
      OneRow(x, p);
      OneRow(y, p);
      OneRow(m, p);
    }
  }

  lemma OneRow(r: Row, p: Key -> bool)
    ensures SumCnt([r], p) == (if p(r.key) then r.cnt else 0)
    ensures UniqMerge([r], p) == (if p(r.key) then r.ids else {})
  {
  }

  /** The query looks at one dimension only. */
  ghost predicate OnDim(p: Key -> bool, dim: Dim) {
    forall key :: p(key) ==> key.dimName == dim
  }

  lemma {:induction false} OtherDims(e: Event, dims: seq<Dim>, p: Key -> bool, dim: Dim)
    requires OnDim(p, dim) && dim !in dims
    ensures SumCnt(RowsFor(e, dims), p) == 0 && UniqMerge(RowsFor(e, dims), p) == {}
  {
    if dims != [] { OtherDims(e, dims[1..], p, dim); }
  }

  /** Of the rows an event fans out to, exactly the one of that dimension is read. */
  lemma {:induction false} FanOut(e: Event, dims: seq<Dim>, p: Key -> bool, dim: Dim)
    requires OnDim(p, dim) && dim in dims && forall i, j :: 0 <= i < j < |dims| ==> dims[i] != dims[j]
    ensures SumCnt(RowsFor(e, dims), p) == if p(KeyFor(e, dim)) then 1 else 0
    ensures UniqMerge(RowsFor(e, dims), p) == if p(KeyFor(e, dim)) then {e.distinctId} else {}
  {
    if dims[0] == dim {
      OtherDims(e, dims[1..], p, dim);
    } else {
      FanOut(e, dims[1..], p, dim);
    }
  }

  lemma NothingStored(p: Key -> bool, q: Event -> bool)
    ensures SumCnt([], p) == Count([], q) == 0 && UniqMerge([], p) == Uniq([], q) == {}
  {
  }

  /** The condition on a rollup row, read as a condition on the event behind it. */
  function OnEvents(p: Key -> bool, dim: Dim): Event -> bool { e => p(KeyFor(e, dim)) }

  lemma CountSnoc(events: seq<Event>, e: Event, p: Event -> bool)
    ensures Count(events + [e], p) == Count(events, p) + if p(e) then 1 else 0
    ensures Uniq(events + [e], p) == Uniq(events, p) + if p(e) then {e.distinctId} else {}
  {
    assert (events + [e])[..|events|] == events;
  }

  /** Whatever the history of inserts and merges, a query on one dimension of the rollup reads the
      event count and the id set a scan of the inserted events would compute. */
  lemma {:induction false} RollupIsFaithful(ops: seq<Op>, p: Key -> bool, dim: Dim)
    requires OnDim(p, dim)
    ensures SumCnt(Stored(ops), p) == Count(Inserted(ops), OnEvents(p, dim))
    ensures UniqMerge(Stored(ops), p) == Uniq(Inserted(ops), OnEvents(p, dim))
  {
    hide SumCnt, UniqMerge, Count, Uniq, RowsFor, KeyFor;
    if ops == [] {
      NothingStored(p, OnEvents(p, dim));
    } else {
      var front, op := ops[..|ops| - 1], ops[|ops| - 1];
      RollupIsFaithful(front, p, dim);
      match op {
        case Ingest(e) =>
          EachDimOnce(dim, 0);
          forall i | 0 <= i < |ROLLUP_DIMS| ensures Position(ROLLUP_DIMS[i]) == i { EachDimOnce(dim, i); }
          SumCntAppend(Stored(front), RowsFor(e, ROLLUP_DIMS), p);
          FanOut(e, ROLLUP_DIMS, p, dim);
          CountSnoc(Inserted(front), e, OnEvents(p, dim));
        case Merge(i, j) =>
          MergeIsInvisible(Stored(front), i, j, p);
      }
    }
  }

  lemma {:induction false} UniqHas(events: seq<Event>, e: Event, p: Event -> bool)
    requires e in events && p(e)
    ensures e.distinctId in Uniq(events, p)
  {
    var n := |events| - 1;
    if e != events[n] { UniqHas(events[..n], e, p); }
  }

  /** A redelivered event raises every count that selects it and no distinct-id set. */
  lemma RedeliveryOvercounts(ops: seq<Op>, e: Event, p: Key -> bool, dim: Dim)
    requires OnDim(p, dim) && e in Inserted(ops)
    ensures SumCnt(Stored(ops + [Ingest(e)]), p) == SumCnt(Stored(ops), p) + if p(KeyFor(e, dim)) then 1 else 0
    ensures UniqMerge(Stored(ops + [Ingest(e)]), p) == UniqMerge(Stored(ops), p)
  {
    var again := ops + [Ingest(e)];
    assert again[..|ops|] == ops;
    RollupIsFaithful(ops, p, dim);
    RollupIsFaithful(again, p, dim);
    assert Inserted(again) == Inserted(ops) + [e];
    CountSnoc(Inserted(ops), e, OnEvents(p, dim));
    if p(KeyFor(e, dim)) { UniqHas(Inserted(ops), e, OnEvents(p, dim)); }
  }
}
