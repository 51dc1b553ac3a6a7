/** Grouping trend rows into series, and folding all but the top N series of an event kind into
    `$others`. Values are reals; a breakdown tuple stands for its property-to-value map. */
module TrendSeries {
  import opened Basics
  import opened Breakdowns

  datatype TrendRow = TrendRow(time: int, kind: string, breakdowns: seq<string>, value: real)

  datatype Point = Point(time: int, value: real)

  datatype SeriesKey = SeriesKey(kind: string, breakdown: string)

  datatype Entry = Entry(kind: string, breakdowns: seq<string>, points: seq<Point>, total: real)

  datatype Series = Series(kind: string, breakdowns: seq<string>, points: seq<Point>)

  /** NilEntry: a key without an entry is dereferenced, which panics in the source. */
  datatype Outcome = Grouped(series: seq<Series>) | LengthMismatch | NilEntry

  type Entries = map<SeriesKey, Entry>

  function KeyOf(r: TrendRow): SeriesKey { SeriesKey(r.kind, BreakdownKey(r.breakdowns)) }

  // ----- collecting rows into entries

  function AddRow(entries: Entries, r: TrendRow): Entries {
    var key := KeyOf(r);
    var e := if key in entries then entries[key] else Entry(r.kind, r.breakdowns, [], 0.0);
    entries[key := e.(total := e.total + r.value, points := e.points + [Point(r.time, r.value)])]
  }

  function EntriesOf(rows: seq<TrendRow>): Entries {
    if rows == [] then map[] else AddRow(EntriesOf(rows[..|rows| - 1]), rows[|rows| - 1])
  }

  /** Keys in order of first appearance. */
  function Keys(rows: seq<TrendRow>): seq<SeriesKey> {
    if rows == [] then []
    else
      var front, key := Keys(rows[..|rows| - 1]), KeyOf(rows[|rows| - 1]);
      if key in front then front else front + [key]
  }

  lemma {:induction false} KeysMatch(rows: seq<TrendRow>)
    ensures forall i, j :: 0 <= i < j < |Keys(rows)| ==> Keys(rows)[i] != Keys(rows)[j]
    ensures forall key :: key in Keys(rows) <==> key in EntriesOf(rows)
  {
    if rows != [] { KeysMatch(rows[..|rows| - 1]); }
  }

  // ----- merging points

  function MergePoint(dst: seq<Point>, p: Point): seq<Point> {
    if dst == [] then [p]
    else if dst[0].time == p.time then [Point(p.time, dst[0].value + p.value)] + dst[1..]
    else [dst[0]] + MergePoint(dst[1..], p)
  }

  function MergePoints(dst: seq<Point>, points: seq<Point>): seq<Point> {
    if points == [] then dst
    else MergePoint(MergePoints(dst, points[..|points| - 1]), points[|points| - 1])
  }

  /** Sum of the values at one instant. */
  function At(points: seq<Point>, t: int): real {
    if points == [] then 0.0 else (if points[0].time == t then points[0].value else 0.0) + At(points[1..], t)
  }

  ghost predicate OneEach(points: seq<Point>) {
    forall i, j :: 0 <= i < j < |points| ==> points[i].time != points[j].time
  }

  method MergeTrendPoints(dst: seq<Point>, points: seq<Point>) returns (out: seq<Point>)
    ensures out == MergePoints(dst, points)
  {
    out := dst;
    for i := 0 to |points|
      invariant out == MergePoints(dst, points[..i])
    {
      var pt := points[i];
      ghost var before := out;
      var merged := false;
      for j := 0 to |out|
        invariant out == before && !merged
        invariant forall k :: 0 <= k < j ==> out[k].time != pt.time
      {
        if out[j].time == pt.time {
          MergeAtFirst(out, pt, j);
          out := out[j := Point(pt.time, out[j].value + pt.value)];
          merged := true;
          break;
        }
      }
      if !merged {
        MergeAtEnd(out, pt);
        out := out + [pt];
      }
      assert points[..i + 1][..i] == points[..i];
    }
    assert points[..|points|] == points;
  }

  lemma {:induction false} MergeAtFirst(dst: seq<Point>, p: Point, j: nat)
    requires j < |dst| && dst[j].time == p.time && forall k :: 0 <= k < j ==> dst[k].time != p.time
    ensures MergePoint(dst, p) == dst[j := Point(p.time, dst[j].value + p.value)]
  {
    if j > 0 { MergeAtFirst(dst[1..], p, j - 1); }
  }

  lemma {:induction false} MergeAtEnd(dst: seq<Point>, p: Point)
    requires forall k :: 0 <= k < |dst| ==> dst[k].time != p.time
    ensures MergePoint(dst, p) == dst + [p]
  {
    if dst != [] {
      MergeAtEnd(dst[1..], p);
      assert dst == [dst[0]] + dst[1..];
    }
  }

  // ----- ranking

  /** Larger total first, ties by breakdown key ascending. */
  predicate Beats(entries: Entries, a: SeriesKey, b: SeriesKey) {
    a in entries && b in entries &&
    (entries[a].total > entries[b].total ||
     (entries[a].total == entries[b].total && Before(a.breakdown, b.breakdown)))
  }

  function Ranked(entries: Entries, keys: seq<SeriesKey>): seq<SeriesKey> {
    Sort(keys, (a: SeriesKey, b: SeriesKey) => Beats(entries, a, b))
  }

  function OthersTuple(arity: nat): seq<string> { seq(arity, _ => OTHERS) }

  function OthersKey(kind: string, arity: nat): SeriesKey { SeriesKey(kind, BreakdownKey(OthersTuple(arity))) }

  // ----- folding one kind

  /** The `$others` entry after taking in the entries of `rest` in order. */
  function Absorb(entries: Entries, others: Entry, rest: seq<SeriesKey>): Entry
    requires forall k :: k in rest ==> k in entries
  {
    if rest == [] then others
    else
      var o, e := Absorb(entries, others, rest[..|rest| - 1]), entries[rest[|rest| - 1]];
      o.(total := o.total + e.total, points := MergePoints(o.points, e.points))
  }

  function StartOthers(entries: Entries, kind: string, arity: nat): Entry {
    var key := OthersKey(kind, arity);
    if key in entries then entries[key] else Entry(kind, OthersTuple(arity), [], 0.0)
  }

  /** Keys kept for the kind, and the entries left, when `ranked` are its ranked keys. The folded
      keys lose their entries; so does the `$others` key itself when it is among them. */
  function FoldKind(entries: Entries, kind: string, ranked: seq<SeriesKey>, limit: nat, arity: nat):
    (r: (seq<SeriesKey>, Entries))
    requires forall k :: k in ranked ==> k in entries && k.kind == kind
    ensures forall k :: k in r.0 ==> k.kind == kind
    ensures forall k: SeriesKey :: k.kind != kind ==>
              (k in r.1 <==> k in entries) && (k in entries ==> r.1[k] == entries[k])
  {
    if |ranked| <= limit then (ranked, entries)
    else
      var rest, key := ranked[limit..], OthersKey(kind, arity);
      var others := Absorb(entries, StartOthers(entries, kind, arity), rest);
      var left := entries - set k | k in rest;
      (ranked[..limit] + [key], if key in rest then left else left[key := others])
  }

  function KeysOfKind(keys: seq<SeriesKey>, kind: string): seq<SeriesKey> {
    if keys == [] then []
    else
      var front, k := KeysOfKind(keys[..|keys| - 1], kind), keys[|keys| - 1];
      if k.kind == kind then front + [k] else front
  }

  lemma {:induction false} KeysOfKindIn(keys: seq<SeriesKey>, kind: string)
    ensures forall k :: k in KeysOfKind(keys, kind) <==> k in keys && k.kind == kind
  {
    if keys != [] {
      var n := |keys| - 1;
      KeysOfKindIn(keys[..n], kind);
      assert keys == keys[..n] + [keys[n]];
    }
  }

  function KindsOf(keys: seq<SeriesKey>): (kinds: seq<string>)
    ensures forall k :: k in keys ==> k.kind in kinds
    ensures forall kind :: kind in kinds ==> exists k :: k in keys && k.kind == kind
    ensures forall i, j :: 0 <= i < j < |kinds| ==> kinds[i] != kinds[j]
  {
    if keys == [] then []
    else
      var front, kind := KindsOf(keys[..|keys| - 1]), keys[|keys| - 1].kind;
      if kind in front then front else front + [kind]
  }

  lemma RankedIn(entries: Entries, keys: seq<SeriesKey>, kind: string)
    ensures forall k :: k in Ranked(entries, KeysOfKind(keys, kind)) <==> k in keys && k.kind == kind
    ensures |Ranked(entries, KeysOfKind(keys, kind))| == |KeysOfKind(keys, kind)|
  {
    var ks := KeysOfKind(keys, kind);
    KeysOfKindIn(keys, kind);
    SortKeeps(ks, (a: SeriesKey, b: SeriesKey) => Beats(entries, a, b));
    SameElements(Ranked(entries, ks), ks);
  }

  /** Kinds are folded one after another into the same map; each touches its own keys only. */
  function FoldKinds(entries: Entries, keys: seq<SeriesKey>, kinds: seq<string>, limit: nat, arity: nat):
    (r: (seq<SeriesKey>, Entries))
    requires Distinct(kinds) && forall k :: k in keys ==> k in entries
    ensures forall k :: k in r.0 ==> k.kind in kinds
    ensures forall k: SeriesKey :: k.kind !in kinds ==>
              (k in r.1 <==> k in entries) && (k in entries ==> r.1[k] == entries[k])
  {
    if kinds == [] then ([], entries)
    else
      var front, kind := kinds[..|kinds| - 1], kinds[|kinds| - 1];
      var (newKeys, left) := FoldKinds(entries, keys, front, limit, arity);
      var ranked := Ranked(left, KeysOfKind(keys, kind));
      RankedIn(left, keys, kind);
      assert kind !in front;
      var (kept, after) := FoldKind(left, kind, ranked, limit, arity);
      (newKeys + kept, after)
  }

  function SortedKinds(keys: seq<SeriesKey>): (kinds: seq<string>)
    ensures Distinct(kinds) && forall kind :: kind in kinds <==> kind in KindsOf(keys)
  {
    var kinds := KindsOf(keys);
    SortKeeps(kinds, Before);
    SameElements(Sort(kinds, Before), kinds);
    DistinctByMultiset(Sort(kinds, Before), kinds);
    Sort(kinds, Before)
  }

  // ----- emitting

  function SortPoints(points: seq<Point>): seq<Point> {
    Sort(points, (a: Point, b: Point) => a.time < b.time)
  }

  function EmitSeries(entries: Entries, keys: seq<SeriesKey>): seq<Series>
    requires forall k :: k in keys ==> k in entries
  {
    seq(|keys|, i requires 0 <= i < |keys| =>
      var e := entries[keys[i]]; Series(e.kind, e.breakdowns, SortPoints(e.points)))
  }

  function Emit(entries: Entries, keys: seq<SeriesKey>): Outcome {
    if forall k :: k in keys ==> k in entries then Grouped(EmitSeries(entries, keys)) else NilEntry
  }

  function TopN(entries: Entries, keys: seq<SeriesKey>, limit: nat, arity: nat): (seq<SeriesKey>, Entries)
    requires forall k :: k in keys ==> k in entries
  {
    FoldKinds(entries, keys, SortedKinds(keys), limit, arity)
  }

  predicate UniformArity(rows: seq<TrendRow>, arity: nat) {
    forall i :: 0 <= i < |rows| ==> |rows[i].breakdowns| == arity
  }

  /** What GroupSeries returns; the limit is off when it or the arity is not positive. */
  function Group(rows: seq<TrendRow>, arity: nat, limit: int): Outcome {
    if !UniformArity(rows, arity) then LengthMismatch
    else
      var entries, keys := EntriesOf(rows), Keys(rows);
      KeysMatch(rows);
      if limit > 0 && arity > 0 then var (kept, left) := TopN(entries, keys, limit, arity); Emit(left, kept)
      else Emit(entries, keys)
  }

  // ----- the loops

  method GroupSeries(rows: seq<TrendRow>, properties: seq<string>, breakdownLimit: int) returns (out: Outcome)
    ensures out == Group(rows, |properties|, breakdownLimit)
  {
    hide EntriesOf, Keys, TopN;
    KeysMatch(rows);
    var orderedKeys, entriesByKey, ok := CollectRows(rows, |properties|);
    if !ok {
      return LengthMismatch;
    }
    if breakdownLimit > 0 && |properties| > 0 {
      orderedKeys, entriesByKey := ApplyTrendsTopN(orderedKeys, entriesByKey, |properties|, breakdownLimit);
    }
    out := EmitAll(orderedKeys, entriesByKey);
  }

  method CollectRow(keys: seq<SeriesKey>, entries: Entries, r: TrendRow)
    returns (keys': seq<SeriesKey>, entries': Entries)
    requires KeyOf(r) in keys <==> KeyOf(r) in entries
    ensures keys' == (if KeyOf(r) in keys then keys else keys + [KeyOf(r)]) && entries' == AddRow(entries, r)
  {
    hide BreakdownKey;
    keys', entries' := keys, entries;
    var key := SeriesKey(r.kind, BreakdownKey(r.breakdowns));
    if key !in entries' {
      keys' := keys' + [key];
      entries' := entries'[key := Entry(r.kind, r.breakdowns, [], 0.0)];
    }
    var e := entries'[key];
    entries' := entries'[key := e.(total := e.total + r.value, points := e.points + [Point(r.time, r.value)])];
  }

  method CollectRows(rows: seq<TrendRow>, arity: nat) returns (keys: seq<SeriesKey>, entries: Entries, ok: bool)
    ensures ok <==> UniformArity(rows, arity)
    ensures ok ==> keys == Keys(rows) && entries == EntriesOf(rows)
  {
    hide Keys, EntriesOf, AddRow, KeyOf;
    keys, entries := [], map[];
    NoRowsCollected();
    assert rows[..0] == [];
    for i := 0 to |rows|
      invariant keys == Keys(rows[..i]) && entries == EntriesOf(rows[..i])
      invariant forall j :: 0 <= j < i ==> |rows[j].breakdowns| == arity
    {
      var r := rows[i];
      if |r.breakdowns| != arity {
        return keys, entries, false;
      }
      RowSnoc(rows, i);
      KeyCollected(rows[..i], KeyOf(r));
      keys, entries := CollectRow(keys, entries, r);
    }
    assert rows[..|rows|] == rows;
    ok := true;
  }

  lemma NoRowsCollected()
    ensures Keys([]) == [] && EntriesOf([]) == map[]
  {
  }

  lemma KeyCollected(rows: seq<TrendRow>, key: SeriesKey)
    ensures key in Keys(rows) <==> key in EntriesOf(rows)
  {
    KeysMatch(rows);
  }

  lemma RowSnoc(rows: seq<TrendRow>, i: nat)
    requires i < |rows|
    ensures EntriesOf(rows[..i + 1]) == AddRow(EntriesOf(rows[..i]), rows[i])
    ensures var key, keys := KeyOf(rows[i]), Keys(rows[..i]);
            Keys(rows[..i + 1]) == if key in keys then keys else keys + [key]
  {
    hide KeyOf, AddRow;
    assert rows[..i + 1][..i] == rows[..i];
  }

  method EmitAll(keys: seq<SeriesKey>, entries: Entries) returns (out: Outcome)
    ensures out == Emit(entries, keys)
  {
    hide SortPoints;
    var series := [];
    for i := 0 to |keys|
      invariant forall k :: k in keys[..i] ==> k in entries
      invariant series == EmitSeries(entries, keys[..i])
    {
      var key := keys[i];
      if key !in entries {
        return NilEntry;
      }
      var e := entries[key];
      series := series + [Series(e.kind, e.breakdowns, SortPoints(e.points))];
    }
    assert keys[..|keys|] == keys;
    return Grouped(series);
  }

  method ApplyTrendsTopN(orderedKeys: seq<SeriesKey>, entriesByKey: Entries, arity: nat, limit: nat)
    returns (newKeys: seq<SeriesKey>, entries: Entries)
    requires forall k :: k in orderedKeys ==> k in entriesByKey
    ensures (newKeys, entries) == TopN(entriesByKey, orderedKeys, limit, arity)
  {
    var eventKinds := SortedKinds(orderedKeys);
    newKeys, entries := [], entriesByKey;
    assert (newKeys, entries) == FoldKinds(entriesByKey, orderedKeys, eventKinds[..0], limit, arity);
    hide SortedKinds, Ranked, KeysOfKind, FoldKind, FoldKinds;
    for n := 0 to |eventKinds|
      invariant (newKeys, entries) == FoldKinds(entriesByKey, orderedKeys, eventKinds[..n], limit, arity)
    {
      var kind := eventKinds[n];
      FoldNextKind(entriesByKey, orderedKeys, eventKinds, n, limit, arity);
      var keys := Ranked(entries, KeysOfKind(orderedKeys, kind));
      RankedIn(entries, orderedKeys, kind);
      var kept;
      kept, entries := FoldOneKind(entries, kind, keys, limit, arity);
      newKeys := newKeys + kept;
    }
    assert eventKinds[..|eventKinds|] == eventKinds;
  }

  lemma FoldNextKind(entries: Entries, keys: seq<SeriesKey>, kinds: seq<string>, n: nat, limit: nat, arity: nat)
    requires Distinct(kinds) && n < |kinds| && forall k :: k in keys ==> k in entries
    ensures var (newKeys, left) := FoldKinds(entries, keys, kinds[..n], limit, arity);
            var ranked := Ranked(left, KeysOfKind(keys, kinds[n]));
            && (forall k :: k in ranked ==> k in left && k.kind == kinds[n])
            && var (kept, after) := FoldKind(left, kinds[n], ranked, limit, arity);
               FoldKinds(entries, keys, kinds[..n + 1], limit, arity) == (newKeys + kept, after)
  {
    hide FoldKind, Ranked, KeysOfKind;
    assert kinds[..n + 1][..n] == kinds[..n] && kinds[..n + 1][n] == kinds[n];
    var (newKeys, left) := FoldKinds(entries, keys, kinds[..n], limit, arity);
    RankedIn(left, keys, kinds[n]);
    assert kinds[n] !in kinds[..n];
  }

  method FoldOneKind(before: Entries, kind: string, keys: seq<SeriesKey>, limit: nat, arity: nat)
    returns (kept: seq<SeriesKey>, entries: Entries)
    requires forall k :: k in keys ==> k in before && k.kind == kind
    ensures (kept, entries) == FoldKind(before, kind, keys, limit, arity)
  {
    if |keys| <= limit {
      return keys, before;
    }
    var topKeys, restKeys := keys[..limit], keys[limit..];
    var othersKey := OthersKey(kind, arity);
    var others := StartOthers(before, kind, arity);
    entries := before;
    for i := 0 to |restKeys|
      invariant others == Absorb(before, StartOthers(before, kind, arity), restKeys[..i])
      invariant entries == before - set k | k in restKeys[..i]
    {
      var re := before[restKeys[i]];
      var points := MergeTrendPoints(others.points, re.points);
      others := others.(total := others.total + re.total, points := points);
      entries := entries - {restKeys[i]};
      assert restKeys[..i + 1][..i] == restKeys[..i] && restKeys[..i + 1] == restKeys[..i] + [restKeys[i]];
    }
    assert restKeys[..|restKeys|] == restKeys;
    // The entry is shared with the map, unless the loop has just deleted it there.
    if othersKey !in restKeys {
      entries := entries[othersKey := others];
    }
    return topKeys + [othersKey], entries;
  }
}
