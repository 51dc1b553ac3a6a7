/** What the grouping adds up to for any rows, with no value ruled out: exactly when it conserves, and by how much it
    is off when a breakdown is itself spelled `$others`. */
module TrendSeriesExact {
  import opened Basics
  import opened Breakdowns
  import opened TrendSeries
  import opened TrendSeriesLaws

  // ----- what ends up in `$others`

  /** The series is spelled `$others`, or ranks below the limit. */
  ghost predicate EndsInOthers(rows: seq<TrendRow>, arity: nat, limit: int, key: SeriesKey) {
    key == OthersKey(key.kind, arity) || |Ahead(rows, key)| >= limit
  }

  /** The rows of `part` at one instant that end up in the kind's `$others`. */
  ghost function OthersAt(rows: seq<TrendRow>, part: seq<TrendRow>, arity: nat, limit: int, kind: string,
                          t: int): real {
    if part == [] then 0.0
    else
      var r := part[|part| - 1];
      OthersAt(rows, part[..|part| - 1], arity, limit, kind, t) +
      if r.kind == kind && r.time == t && EndsInOthers(rows, arity, limit, KeyOf(r)) then r.value else 0.0
  }

  /** A kind that is folded although one of its breakdowns is spelled `$others`. */
  ghost predicate FoldsOntoLiteral(rows: seq<TrendRow>, arity: nat, limit: int, kind: string) {
    limit > 0 && arity > 0 && OthersKey(kind, arity) in EntriesOf(rows) && |KeysOfKind(Keys(rows), kind)| > limit
  }

  // ----- rows by key

  function InKeys(rows: seq<TrendRow>, ks: seq<SeriesKey>, kind: string, t: int): real {
    if rows == [] then 0.0
    else
      var r := rows[|rows| - 1];
      InKeys(rows[..|rows| - 1], ks, kind, t) + if r.kind == kind && r.time == t && KeyOf(r) in ks then r.value else 0.0
  }

  lemma {:induction false} CollectedIn(rows: seq<TrendRow>, ks: seq<SeriesKey>, kind: string, t: int)
    requires Distinct(ks)
    ensures KindAt(EntriesOf(rows), ks, kind, t) == InKeys(rows, ks, kind, t)
  {
    hide BreakdownKey, AddRow;
    if rows == [] {
      NothingCollected(ks, kind, t);
    } else {
      var front, r := rows[..|rows| - 1], rows[|rows| - 1];
      CollectedIn(front, ks, kind, t);
      AddRowIn(EntriesOf(front), ks, r, kind, t);
    }
  }

  lemma {:induction false} NothingCollected(ks: seq<SeriesKey>, kind: string, t: int)
    ensures KindAt(map[], ks, kind, t) == 0.0
  {
    if ks != [] { NothingCollected(ks[1..], kind, t); }
  }

  lemma AddRowIn(entries: Entries, ks: seq<SeriesKey>, r: TrendRow, kind: string, t: int)
    requires Distinct(ks)
    ensures KindAt(AddRow(entries, r), ks, kind, t) ==
      KindAt(entries, ks, kind, t) + if r.kind == kind && r.time == t && KeyOf(r) in ks then r.value else 0.0
  {
    hide BreakdownKey, At, AddRow, KindAt;
    var key, after := KeyOf(r), AddRow(entries, r);
    AddedPoints(entries, r, t);
    if key in ks {
      var a, b := SplitAround(ks, key);
      AroundKey(entries, a, key, b, kind, t);
      AroundKey(after, a, key, b, kind, t);
      KindAtAgrees(entries, after, a, kind, t);
      KindAtAgrees(entries, after, b, kind, t);
    } else {
      KindAtAgrees(entries, after, ks, kind, t);
    }
  }

  lemma AroundKey(entries: Entries, a: seq<SeriesKey>, key: SeriesKey, b: seq<SeriesKey>, kind: string, t: int)
    ensures KindAt(entries, a + ([key] + b), kind, t) == KindAt(entries, a, kind, t) + KindAt(entries, b, kind, t) +
      if key.kind == kind && key in entries then At(entries[key].points, t) else 0.0
  {
    hide At;
    KindAtAppend(entries, a, [key] + b, kind, t);
    assert ([key] + b)[1..] == b;
  }

  // ----- one kind

  lemma RankedFacts(rows: seq<TrendRow>, kind: string)
    ensures forall k :: k in Keys(rows) <==> k in EntriesOf(rows)
    ensures var ranked := Ranked(EntriesOf(rows), KeysOfKind(Keys(rows), kind));
      && Distinct(ranked) && StrictlyRanked(EntriesOf(rows), ranked) && |ranked| == |KeysOfKind(Keys(rows), kind)|
      && (forall k :: k in ranked <==> k in EntriesOf(rows) && k.kind == kind)
  {
    var entries, keys := EntriesOf(rows), Keys(rows);
    KeysMatch(rows);
    hide EntriesOf, Keys, Ranked, KeysOfKind, Beats;
    KeysOfKindDistinct(keys, kind);
    KeysOfKindIn(keys, kind);
    RankedIn(entries, keys, kind);
    RankedStrictly(entries, KeysOfKind(keys, kind), kind);
    BeatsIsWeak(entries);
  }

  /** The folded keys and the literal `$others` hold exactly the rows that end up there. */
  lemma {:induction false} OthersAreFolded(rows: seq<TrendRow>, part: seq<TrendRow>, arity: nat, limit: nat,
                                           kind: string, t: int, ranked: seq<SeriesKey>, ks: seq<SeriesKey>)
    requires StrictlyRanked(EntriesOf(rows), ranked) && |ranked| > limit
    requires forall k :: k in ranked <==> k in EntriesOf(rows) && k.kind == kind
    requires forall i :: 0 <= i < |part| ==> KeyOf(part[i]) in EntriesOf(rows)
    requires ks == [OthersKey(kind, arity)] + ranked[limit..]
    ensures InKeys(part, ks, kind, t) == OthersAt(rows, part, arity, limit, kind, t)
  {
    hide StrictlyRanked, EndsInOthers, BreakdownKey, EntriesOf;
    if part != [] {
      var front, r := part[..|part| - 1], part[|part| - 1];
      assert forall i :: 0 <= i < |front| ==> front[i] == part[i];
      OthersAreFolded(rows, front, arity, limit, kind, t, ranked, ks);
      if r.kind == kind { FoldedKey(rows, arity, limit, kind, ranked, KeyOf(r)); }
    }
  }

  lemma FoldedKey(rows: seq<TrendRow>, arity: nat, limit: nat, kind: string, ranked: seq<SeriesKey>, key: SeriesKey)
    requires StrictlyRanked(EntriesOf(rows), ranked) && |ranked| > limit
    requires forall k :: k in ranked <==> k in EntriesOf(rows) && k.kind == kind
    requires key in EntriesOf(rows) && key.kind == kind
    ensures key in [OthersKey(kind, arity)] + ranked[limit..] <==> EndsInOthers(rows, arity, limit, key)
  {
    hide StrictlyRanked, Ahead, OthersKey, EntriesOf;
    RankOf(rows, ranked, kind, key, limit);
    var rest := ranked[limit..];
    if key in rest {
      var i :| 0 <= i < |rest| && rest[i] == key;
      assert ranked[limit + i] == key;
    }
    if i :| limit <= i < |ranked| && ranked[i] == key {
      assert rest[i - limit] == key;
    }
  }

  lemma RowKeysCollected(rows: seq<TrendRow>, i: nat)
    requires i < |rows|
    ensures KeyOf(rows[i]) in EntriesOf(rows)
    decreases |rows|
  {
    hide BreakdownKey;
    if i < |rows| - 1 { RowKeysCollected(rows[..|rows| - 1], i); }
  }

  /** What folding one kind with a literal `$others` among its kept keys adds up to. */
  lemma FoldOntoLiteral(rows: seq<TrendRow>, arity: nat, limit: nat, kind: string, t: int)
    requires forall k :: k in Keys(rows) ==> k in EntriesOf(rows)
    requires FoldsOntoLiteral(rows, arity, limit, kind) && |Ahead(rows, OthersKey(kind, arity))| < limit
    ensures var (kept, after) := FoldAlone(EntriesOf(rows), Keys(rows), kind, limit, arity);
      && (forall k :: k in kept ==> k in after)
      && KindAt(after, kept, kind, t) == RowsAt(rows, kind, t) + OthersAt(rows, rows, arity, limit, kind, t)
  {
    var entries, keys, key := EntriesOf(rows), Keys(rows), OthersKey(kind, arity);
    assert key.kind == kind;
    var ks := KeysOfKind(keys, kind);
    var ranked := Ranked(entries, ks);
    RankedFacts(rows, kind);
    CollectedAt(rows, kind, t);
    forall i | 0 <= i < |rows| ensures KeyOf(rows[i]) in entries { RowKeysCollected(rows, i); }
    hide EntriesOf, Keys, FoldKind, Ranked, KeysOfKind, Ahead, OthersKey, KindAt, At, StrictlyRanked, Absorb;
    LiteralIsKept(rows, arity, limit, kind, ranked);
    NamedOthersCountTwice(entries, kind, ranked, limit, arity, t);
    LiteralTotal(entries, kind, ranked, limit, arity, t);
    CollectedIn(rows, [key] + ranked[limit..], kind, t);
    OthersAreFolded(rows, rows, arity, limit, kind, t, ranked, [key] + ranked[limit..]);
    SortedKindAt(entries, keys, kind, t);
  }

  lemma SortedKindAt(entries: Entries, keys: seq<SeriesKey>, kind: string, t: int)
    ensures KindAt(entries, Ranked(entries, KeysOfKind(keys, kind)), kind, t) == KindAt(entries, keys, kind, t)
  {
    hide KindAt, KeysOfKind;
    KindAtSort(entries, KeysOfKind(keys, kind), (a: SeriesKey, b: SeriesKey) => Beats(entries, a, b), kind, t);
    KindAtFilter(entries, keys, kind, t);
  }

  lemma LiteralIsKept(rows: seq<TrendRow>, arity: nat, limit: nat, kind: string, ranked: seq<SeriesKey>)
    requires StrictlyRanked(EntriesOf(rows), ranked) && Distinct(ranked) && |ranked| > limit
    requires forall k :: k in ranked <==> k in EntriesOf(rows) && k.kind == kind
    requires OthersKey(kind, arity) in EntriesOf(rows) && |Ahead(rows, OthersKey(kind, arity))| < limit
    ensures OthersKey(kind, arity) in ranked[..limit] && Distinct([OthersKey(kind, arity)] + ranked[limit..])
  {
    var key := OthersKey(kind, arity);
    KeyKind(kind, arity);
    hide OthersKey, Ahead, EntriesOf, StrictlyRanked, Distinct;
    RankOf(rows, ranked, kind, key, limit);
    assert key in ranked;
    KeptNotFolded(ranked, limit, key);
  }

  lemma KeptNotFolded(ranked: seq<SeriesKey>, limit: nat, key: SeriesKey)
    requires Distinct(ranked) && key in ranked && limit <= |ranked|
    requires !exists i :: limit <= i < |ranked| && ranked[i] == key
    ensures key in ranked[..limit] && Distinct([key] + ranked[limit..])
  {
    var i :| 0 <= i < |ranked| && ranked[i] == key;
    assert ranked[..limit][i] == key;
  }

  /** The literal series after the fold holds its own points and those of the folded keys. */
  lemma LiteralTotal(entries: Entries, kind: string, ranked: seq<SeriesKey>, limit: nat, arity: nat, t: int)
    requires Distinct(ranked) && forall k :: k in ranked ==> k in entries && k.kind == kind
    requires |ranked| > limit && OthersKey(kind, arity) in ranked[..limit]
    ensures var (kept, after) := FoldKind(entries, kind, ranked, limit, arity);
      && OthersKey(kind, arity) in after && (forall k :: k in kept ==> k in after)
      && At(after[OthersKey(kind, arity)].points, t) ==
        KindAt(entries, [OthersKey(kind, arity)] + ranked[limit..], kind, t)
  {
    var key := OthersKey(kind, arity);
    hide OthersKey, At, KindAt, FoldKind, Absorb;
    var rest := ranked[limit..];
    assert key !in rest;
    FoldShape(entries, kind, ranked, limit, arity);
    AbsorbAt(entries, entries[key], rest, kind, t);
    KindAtAppend(entries, [key], rest, kind, t);
    KindAtOne(entries, key, kind, t);
  }

  /** What one kind of the folded entries adds up to, unless its `$others` key is dangling. */
  lemma KindAfterFold(rows: seq<TrendRow>, arity: nat, limit: nat, kind: string, t: int)
    requires limit > 0 && arity > 0 && forall k :: k in Keys(rows) ==> k in EntriesOf(rows)
    requires OthersKey(kind, arity) in EntriesOf(rows) ==> |Ahead(rows, OthersKey(kind, arity))| < limit
    ensures var (newKeys, left) := TopN(EntriesOf(rows), Keys(rows), limit, arity);
      && |KeysOfKind(newKeys, kind)| <= limit + 1
      && KindAt(left, newKeys, kind, t) ==
         RowsAt(rows, kind, t) +
         if FoldsOntoLiteral(rows, arity, limit, kind) then OthersAt(rows, rows, arity, limit, kind, t) else 0.0
  {
    var entries, keys, key := EntriesOf(rows), Keys(rows), OthersKey(kind, arity);
    if key !in entries {
      FoldedKindFacts(rows, arity, limit, kind, t);
    } else {
      KeysMatch(rows);
      hide EntriesOf, Keys, FoldAlone, FoldKinds, KeysOfKind, KindAt, OthersKey, Ahead;
      var (newKeys, left) := TopN(entries, keys, limit, arity);
      FoldKindsPerKind(entries, keys, SortedKinds(keys), limit, arity, kind);
      KindAtFilter(left, newKeys, kind, t);
      assert key.kind == kind by { KeyKind(kind, arity); }
      assert key in keys && kind in SortedKinds(keys);
      var (kept, after) := FoldAlone(entries, keys, kind, limit, arity);
      KindAtAgrees(left, after, kept, kind, t);
      AloneIsShort(entries, keys, kind, limit, arity);
      if FoldsOntoLiteral(rows, arity, limit, kind) {
        FoldOntoLiteral(rows, arity, limit, kind, t);
      } else {
        NotFolded(entries, keys, kind, limit, arity);
        SortedKindAt(entries, keys, kind, t);
        CollectedAt(rows, kind, t);
      }
    }
  }

  lemma KeyKind(kind: string, arity: nat)
    ensures OthersKey(kind, arity).kind == kind
  {
  }

  lemma AloneIsShort(entries: Entries, keys: seq<SeriesKey>, kind: string, limit: nat, arity: nat)
    requires forall k :: k in keys ==> k in entries
    ensures |FoldAlone(entries, keys, kind, limit, arity).0| <= limit + 1
  {
    hide Ranked, KeysOfKind;
  }

  lemma NotFolded(entries: Entries, keys: seq<SeriesKey>, kind: string, limit: nat, arity: nat)
    requires (forall k :: k in keys ==> k in entries) && |KeysOfKind(keys, kind)| <= limit
    ensures FoldAlone(entries, keys, kind, limit, arity) == (Ranked(entries, KeysOfKind(keys, kind)), entries)
  {
    RankedIn(entries, keys, kind);
  }

  // ----- the whole grouping

  /** For any rows that do not make the grouping panic, the series of a kind add up at each instant to its rows, and
      once more to all that ends in `$others` when the kind is folded onto a breakdown spelled so. */
  lemma GroupingCounts(rows: seq<TrendRow>, arity: nat, limit: int, kind: string, t: int)
    requires UniformArity(rows, arity) && Group(rows, arity, limit).Grouped?
    ensures var series := Group(rows, arity, limit).series;
      && SeriesAt(series, kind, t) ==
         RowsAt(rows, kind, t) +
         (if FoldsOntoLiteral(rows, arity, limit, kind) then OthersAt(rows, rows, arity, limit, kind, t) else 0.0)
      && (limit > 0 && arity > 0 ==> NumSeries(series, kind) <= limit + 1)
  {
    var entries, keys := EntriesOf(rows), Keys(rows);
    KeysMatch(rows);
    CollectedAt(rows, kind, t);
    if limit > 0 && arity > 0 {
      var (newKeys, left) := TopN(entries, keys, limit, arity);
      forall k | k in left ensures left[k].kind == k.kind { LeftKindsMatch(rows, arity, limit, k); }
      GroupedMeansRanked(rows, arity, limit, kind);
      hide EntriesOf, Keys, TopN, OthersAt, Ahead;
      KindAfterFold(rows, arity, limit, kind, t);
      EmittedAt(left, newKeys, kind, t);
      NumSeriesIsKeys(left, newKeys, kind);
    } else {
      EmittedAt(entries, keys, kind, t);
    }
  }

  lemma GroupedMeansRanked(rows: seq<TrendRow>, arity: nat, limit: nat, kind: string)
    requires UniformArity(rows, arity) && limit > 0 && arity > 0 && Group(rows, arity, limit).Grouped?
    ensures OthersKey(kind, arity) in EntriesOf(rows) ==> |Ahead(rows, OthersKey(kind, arity))| < limit
  {
    hide Group, Ahead, EntriesOf, OthersKey;
    PanicsExactly(rows, arity, limit);
  }

  ghost predicate KindConserves(rows: seq<TrendRow>, arity: nat, limit: int, kind: string)
    requires Group(rows, arity, limit).Grouped?
  {
    forall t :: SeriesAt(Group(rows, arity, limit).series, kind, t) == RowsAt(rows, kind, t)
  }

  /** The grouping returns series, and those of each kind add up to its rows at every instant. */
  ghost predicate Conserves(rows: seq<TrendRow>, arity: nat, limit: int) {
    Group(rows, arity, limit).Grouped? && forall kind :: KindConserves(rows, arity, limit, kind)
  }

  /** The kind is not folded onto a literal `$others`; or it is, but onto a kept one, and nothing ends there that
      could count twice. */
  ghost predicate Harmless(rows: seq<TrendRow>, arity: nat, limit: int, kind: string) {
    FoldsOntoLiteral(rows, arity, limit, kind) ==>
      |Ahead(rows, OthersKey(kind, arity))| < limit && NothingInOthers(rows, arity, limit, kind)
  }

  ghost predicate NothingInOthers(rows: seq<TrendRow>, arity: nat, limit: int, kind: string) {
    forall t :: OthersAt(rows, rows, arity, limit, kind, t) == 0.0
  }

  /** Conservation fails exactly for a kind that is folded onto a literal `$others`: if that ranks below the limit the
      grouping panics, and otherwise what ends in `$others` counts twice, which is harmless only where it is zero. */
  lemma GroupingConservesExactly(rows: seq<TrendRow>, arity: nat, limit: int)
    requires UniformArity(rows, arity)
    ensures Conserves(rows, arity, limit) <==> forall kind :: Harmless(rows, arity, limit, kind)
  {
    hide Group, LiteralKept, FoldsOntoLiteral, NothingInOthers, KindConserves;
    GroupedExactly(rows, arity, limit);
    forall kind ensures Harmless(rows, arity, limit, kind) <==>
      LiteralKept(rows, arity, limit, kind) &&
        (!FoldsOntoLiteral(rows, arity, limit, kind) || NothingInOthers(rows, arity, limit, kind))
    {
      HarmlessParts(rows, arity, limit, kind);
    }
    if Group(rows, arity, limit).Grouped? {
      forall kind { KindConservesExactly(rows, arity, limit, kind); }
    }
  }

  lemma HarmlessParts(rows: seq<TrendRow>, arity: nat, limit: int, kind: string)
    ensures Harmless(rows, arity, limit, kind) <==>
      LiteralKept(rows, arity, limit, kind) &&
        (!FoldsOntoLiteral(rows, arity, limit, kind) || NothingInOthers(rows, arity, limit, kind))
  {
    hide FoldsOntoLiteral, Ahead;
  }

  lemma KindConservesExactly(rows: seq<TrendRow>, arity: nat, limit: int, kind: string)
    requires UniformArity(rows, arity) && Group(rows, arity, limit).Grouped?
    ensures KindConserves(rows, arity, limit, kind) <==>
      !FoldsOntoLiteral(rows, arity, limit, kind) || NothingInOthers(rows, arity, limit, kind)
  {
    hide Group, FoldsOntoLiteral, SeriesAt, RowsAt, OthersAt;
    forall t
      ensures SeriesAt(Group(rows, arity, limit).series, kind, t) == RowsAt(rows, kind, t) <==>
        !FoldsOntoLiteral(rows, arity, limit, kind) || OthersAt(rows, rows, arity, limit, kind, t) == 0.0
    {
      GroupingCounts(rows, arity, limit, kind, t);
    }
  }

  /** A literal `$others` that the kind is folded onto is itself kept. */
  ghost predicate LiteralKept(rows: seq<TrendRow>, arity: nat, limit: int, kind: string) {
    FoldsOntoLiteral(rows, arity, limit, kind) ==> |Ahead(rows, OthersKey(kind, arity))| < limit
  }

  lemma GroupedExactly(rows: seq<TrendRow>, arity: nat, limit: int)
    requires UniformArity(rows, arity)
    ensures Group(rows, arity, limit).Grouped? <==> forall kind :: LiteralKept(rows, arity, limit, kind)
  {
    hide Group, LiteralKept, Dangles;
    if limit > 0 && arity > 0 {
      PanicsOnDangling(rows, arity, limit);
      GroupsUniform(rows, arity, limit);
      forall kind { KeptUnlessDangling(rows, arity, limit, kind); }
    } else {
      NoLimitGroups(rows, arity, limit);
    }
  }

  ghost predicate Dangles(rows: seq<TrendRow>, arity: nat, limit: nat, kind: string) {
    OthersKey(kind, arity) in EntriesOf(rows) && |Ahead(rows, OthersKey(kind, arity))| >= limit
  }

  lemma PanicsOnDangling(rows: seq<TrendRow>, arity: nat, limit: nat)
    requires UniformArity(rows, arity) && limit > 0 && arity > 0
    ensures Group(rows, arity, limit).NilEntry? <==> exists kind :: Dangles(rows, arity, limit, kind)
  {
    hide Group, Ahead, EntriesOf, OthersKey;
    PanicsExactly(rows, arity, limit);
    if kind :| OthersKey(kind, arity) in EntriesOf(rows) && |Ahead(rows, OthersKey(kind, arity))| >= limit {
      assert Dangles(rows, arity, limit, kind);
    }
  }

  lemma KeptUnlessDangling(rows: seq<TrendRow>, arity: nat, limit: nat, kind: string)
    requires limit > 0 && arity > 0
    ensures LiteralKept(rows, arity, limit, kind) <==> !Dangles(rows, arity, limit, kind)
  {
    hide Ahead, EntriesOf, OthersKey, KeysOfKind, Keys;
    if Dangles(rows, arity, limit, kind) { DeepRankIsFolded(rows, arity, limit, kind); }
  }

  lemma NoLimitGroups(rows: seq<TrendRow>, arity: nat, limit: int)
    requires UniformArity(rows, arity) && (limit <= 0 || arity == 0)
    ensures Group(rows, arity, limit).Grouped?
    ensures forall kind :: LiteralKept(rows, arity, limit, kind)
  {
    KeysMatch(rows);
  }

  lemma GroupsUniform(rows: seq<TrendRow>, arity: nat, limit: int)
    requires UniformArity(rows, arity)
    ensures !Group(rows, arity, limit).LengthMismatch?
  {
  }

  /** A key with `limit` keys ahead of it belongs to a kind with more than `limit` keys. */
  lemma DeepRankIsFolded(rows: seq<TrendRow>, arity: nat, limit: nat, kind: string)
    requires OthersKey(kind, arity) in EntriesOf(rows) && |Ahead(rows, OthersKey(kind, arity))| >= limit
    ensures |KeysOfKind(Keys(rows), kind)| > limit
  {
    var key, ranked := OthersKey(kind, arity), Ranked(EntriesOf(rows), KeysOfKind(Keys(rows), kind));
    assert key.kind == kind;
    RankedFacts(rows, kind);
    hide EntriesOf, Ahead, OthersKey, Ranked, KeysOfKind, Keys, StrictlyRanked;
    RankOf(rows, ranked, kind, key, limit);
  }

  /** With rows that all count for something, conservation is a matter of names: no kind with a breakdown spelled
      `$others` may have more breakdowns than the limit. */
  lemma PositiveRowsConserveExactly(rows: seq<TrendRow>, arity: nat, limit: int)
    requires UniformArity(rows, arity) && forall i :: 0 <= i < |rows| ==> rows[i].value > 0.0
    ensures Conserves(rows, arity, limit) <==> forall kind :: !FoldsOntoLiteral(rows, arity, limit, kind)
  {
    hide Conserves, Harmless;
    GroupingConservesExactly(rows, arity, limit);
    forall kind ensures Harmless(rows, arity, limit, kind) <==> !FoldsOntoLiteral(rows, arity, limit, kind) {
      PositiveIsHarmful(rows, arity, limit, kind);
    }
  }

  lemma PositiveIsHarmful(rows: seq<TrendRow>, arity: nat, limit: int, kind: string)
    requires forall i :: 0 <= i < |rows| ==> rows[i].value > 0.0
    ensures Harmless(rows, arity, limit, kind) <==> !FoldsOntoLiteral(rows, arity, limit, kind)
  {
    hide Ahead, OthersKey, OthersAt;
    if FoldsOntoLiteral(rows, arity, limit, kind) {
      LiteralHasRow(rows, OthersKey(kind, arity));
      var i :| 0 <= i < |rows| && KeyOf(rows[i]) == OthersKey(kind, arity);
      KeyKind(kind, arity);
      OthersArePositive(rows, rows, arity, limit, kind, rows[i].time, i);
    }
  }

  lemma LiteralHasRow(rows: seq<TrendRow>, key: SeriesKey)
    requires key in EntriesOf(rows)
    ensures exists i :: 0 <= i < |rows| && KeyOf(rows[i]) == key
    decreases |rows|
  {
    hide BreakdownKey;
    var n := |rows| - 1;
    if KeyOf(rows[n]) != key {
      LiteralHasRow(rows[..n], key);
      var i :| 0 <= i < n && KeyOf(rows[..n][i]) == key;
      assert rows[i] == rows[..n][i];
    }
  }

  lemma {:induction false} OthersArePositive(rows: seq<TrendRow>, part: seq<TrendRow>, arity: nat, limit: int,
                                             kind: string, t: int, i: int)
    requires forall j :: 0 <= j < |part| ==> part[j].value > 0.0
    requires 0 <= i < |part| ==>
      part[i].kind == kind && part[i].time == t && KeyOf(part[i]) == OthersKey(kind, arity)
    ensures OthersAt(rows, part, arity, limit, kind, t) >= 0.0
    ensures 0 <= i < |part| ==> OthersAt(rows, part, arity, limit, kind, t) > 0.0
  {
    hide Ahead, BreakdownKey;
    if part != [] {
      var n := |part| - 1;
      OthersArePositive(rows, part[..n], arity, limit, kind, t, if i < n then i else -1);
      if i == n { assert EndsInOthers(rows, arity, limit, KeyOf(part[n])); }
    }
  }

  // ----- inputs that show it

  const LITERAL := OTHERS

  function TwoRows(a: real, others: real): seq<TrendRow> {
    [TrendRow(0, "k", ["a"], a), TrendRow(0, "k", [LITERAL], others)]
  }

  lemma TwoKeys(a: real, others: real)
    ensures var rows := TwoRows(a, others);
      && KeyOf(rows[0]) == SeriesKey("k", "a") && KeyOf(rows[1]) == SeriesKey("k", LITERAL)
      && OthersKey("k", 1) == SeriesKey("k", LITERAL) && SeriesKey("k", "a") != SeriesKey("k", LITERAL)
      && UniformArity(rows, 1)
  {
    assert OthersTuple(1) == [LITERAL];
    assert |"a"| != |LITERAL|;
  }

  lemma FirstRowEntry(a: real, others: real)
    ensures var front := TwoRows(a, others)[..1];
      && Keys(front) == [SeriesKey("k", "a")]
      && EntriesOf(front) == map[SeriesKey("k", "a") := Entry("k", ["a"], [Point(0, a)], a)]
  {
    hide BreakdownKey, KeyOf;
    TwoKeys(a, others);
    var front := TwoRows(a, others)[..1];
    assert front == [TwoRows(a, others)[0]] && front[..0] == [];
    assert Keys(front[..0]) == [] && EntriesOf(front[..0]) == map[];
    assert [] + [Point(0, a)] == [Point(0, a)];
  }

  lemma TwoRowsEntries(a: real, others: real)
    ensures var rows := TwoRows(a, others);
      && Keys(rows) == [SeriesKey("k", "a"), SeriesKey("k", LITERAL)]
      && EntriesOf(rows) == map[SeriesKey("k", "a") := Entry("k", ["a"], [Point(0, a)], a),
                                SeriesKey("k", LITERAL) := Entry("k", [LITERAL], [Point(0, others)], others)]
      && |KeysOfKind(Keys(rows), "k")| == 2
  {
    hide BreakdownKey, KeyOf, KeysOfKind;
    TwoKeys(a, others);
    var rows := TwoRows(a, others);
    FirstRowEntry(a, others);
    assert [] + [Point(0, others)] == [Point(0, others)];
    BothOfKind(SeriesKey("k", "a"), SeriesKey("k", LITERAL));
  }

  lemma BothOfKind(j: SeriesKey, k: SeriesKey)
    requires j.kind == k.kind
    ensures |KeysOfKind([j, k], k.kind)| == 2
  {
    var ks := [j, k];
    assert ks[..1] == [j] && [j][..0] == [];
    assert KeysOfKind([j], k.kind) == [j];
  }

  /** A literal `$others` below the limit: the grouping panics. */
  lemma SmallLiteralPanics()
    ensures Group(TwoRows(2.0, 1.0), 1, 1).NilEntry?
  {
    var rows := TwoRows(2.0, 1.0);
    TwoKeys(2.0, 1.0);
    TwoRowsEntries(2.0, 1.0);
    PanicsExactly(rows, 1, 1);
    assert SeriesKey("k", "a") in Ahead(rows, SeriesKey("k", LITERAL));
    assert |Ahead(rows, SeriesKey("k", LITERAL))| >= 1;
  }

  /** A literal `$others` above it: three is counted as six. */
  lemma LargeLiteralCountsTwice()
    ensures var out := Group(TwoRows(1.0, 2.0), 1, 1);
      out.Grouped? && RowsAt(TwoRows(1.0, 2.0), "k", 0) == 3.0 && SeriesAt(out.series, "k", 0) == 6.0
  {
    var rows := TwoRows(1.0, 2.0);
    TwoKeys(1.0, 2.0);
    TwoRowsEntries(1.0, 2.0);
    var a, o := SeriesKey("k", "a"), SeriesKey("k", LITERAL);
    assert Ahead(rows, o) == {};
    assert Ahead(rows, a) == {o};
    PanicsExactly(rows, 1, 1);
    OnlyKind(rows);
    GroupingCounts(rows, 1, 1, "k", 0);
    TwoRowsSums(rows);
  }

  lemma TwoRowsSums(rows: seq<TrendRow>)
    requires rows == TwoRows(1.0, 2.0)
    requires EndsInOthers(rows, 1, 1, SeriesKey("k", "a")) && EndsInOthers(rows, 1, 1, SeriesKey("k", LITERAL))
    ensures RowsAt(rows, "k", 0) == 3.0 && OthersAt(rows, rows, 1, 1, "k", 0) == 3.0
  {
    TwoKeys(1.0, 2.0);
    hide EndsInOthers, KeyOf;
    assert rows[..1] == [rows[0]] && rows[..1][..0] == [];
    assert OthersAt(rows, rows[..1], 1, 1, "k", 0) == OthersAt(rows, rows[..1][..0], 1, 1, "k", 0) + 1.0;
    assert RowsAt(rows[..1], "k", 0) == RowsAt(rows[..1][..0], "k", 0) + 1.0;
  }

  lemma OnlyKind(rows: seq<TrendRow>)
    requires rows == TwoRows(1.0, 2.0)
    ensures forall kind :: OthersKey(kind, 1) in EntriesOf(rows) ==> kind == "k"
  {
    TwoKeys(1.0, 2.0);
    TwoRowsEntries(1.0, 2.0);
  }
}
