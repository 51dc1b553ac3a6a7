/** Folding all but the top breakdowns of a funnel into `$others`. */
module FunnelFold {
  import opened Basics
  import opened Breakdowns
  import opened TopBreakdowns
  import opened FunnelTiming
  import TrendSeries

  datatype StepKey = StepKey(step: nat, kind: string)

  function RowKey(r: Row): string { BreakdownKey(r.breakdowns) }

  function StepOf(r: Row): StepKey { StepKey(r.stepIndex, r.eventKind) }

  function AtStep(sk: StepKey): Row -> real { (r: Row) => if StepOf(r) == sk then r.value else 0.0 }

  function StepTotal(rows: seq<Row>, sk: StepKey): real { SumBy(rows, AtStep(sk)) }

  // ----- the rank of a breakdown: its step-0 total

  function AddTotal(totals: map<string, real>, r: Row): map<string, real> {
    if r.stepIndex == 0 then totals[RowKey(r) := (if RowKey(r) in totals then totals[RowKey(r)] else 0.0) + r.value]
    else totals
  }

  function Totals(rows: seq<Row>): map<string, real> {
    if rows == [] then map[] else AddTotal(Totals(rows[..|rows| - 1]), rows[|rows| - 1])
  }

  function Entering(key: string): Row -> real {
    (r: Row) => if r.stepIndex == 0 && RowKey(r) == key then r.value else 0.0
  }

  lemma {:induction false} TotalsAre(rows: seq<Row>, key: string)
    ensures key in Totals(rows) <==> exists i :: 0 <= i < |rows| && rows[i].stepIndex == 0 && RowKey(rows[i]) == key
    ensures SumBy(rows, Entering(key)) == if key in Totals(rows) then Totals(rows)[key] else 0.0
  {
    if rows != [] {
      var n := |rows| - 1;
      TotalsAre(rows[..n], key);
      assert rows[n].stepIndex == 0 && RowKey(rows[n]) == key ==> key in Totals(rows);
    }
  }

  // ----- the folded rows, one per (step, kind)

  function AddOther(others: map<StepKey, real>, r: Row): map<StepKey, real> {
    others[StepOf(r) := (if StepOf(r) in others then others[StepOf(r)] else 0.0) + r.value]
  }

  function OthersOf(rows: seq<Row>): map<StepKey, real> {
    if rows == [] then map[] else AddOther(OthersOf(rows[..|rows| - 1]), rows[|rows| - 1])
  }

  lemma {:induction false} OthersAre(rows: seq<Row>, sk: StepKey)
    ensures StepTotal(rows, sk) == if sk in OthersOf(rows) then OthersOf(rows)[sk] else 0.0
    ensures sk in OthersOf(rows) <==> exists i :: 0 <= i < |rows| && StepOf(rows[i]) == sk
  {
    if rows != [] {
      var n := |rows| - 1;
      OthersAre(rows[..n], sk);
      assert StepOf(rows[n]) in OthersOf(rows);
    }
  }

  lemma OthersSnoc(rows: seq<Row>, r: Row)
    ensures OthersOf(rows + [r]) == AddOther(OthersOf(rows), r)
  {
    assert (rows + [r])[..|rows|] == rows;
  }

  function OthersRow(sk: StepKey, value: real, arity: nat): Row {
    Row(sk.step, sk.kind, TrendSeries.OthersTuple(arity), value, None)
  }

  /** `rest` holds one row per entry of `others` whose step is in `done`, in any order. */
  ghost predicate IsOthers(others: map<StepKey, real>, done: set<StepKey>, arity: nat, rest: seq<Row>) {
    && (forall i, j :: 0 <= i < j < |rest| ==> StepOf(rest[i]) != StepOf(rest[j]))
    && (forall i :: 0 <= i < |rest| ==>
          var sk := StepOf(rest[i]); sk in done && sk in others && rest[i] == OthersRow(sk, others[sk], arity))
    && (forall sk :: sk in done ==> exists i :: 0 <= i < |rest| && StepOf(rest[i]) == sk)
  }

  lemma IsOthersMore(others: map<StepKey, real>, done: set<StepKey>, arity: nat, rest: seq<Row>, sk: StepKey)
    requires IsOthers(others, done, arity, rest) && sk in others && sk !in done
    ensures IsOthers(others, done + {sk}, arity, rest + [OthersRow(sk, others[sk], arity)])
  {
    var more := rest + [OthersRow(sk, others[sk], arity)];
    assert StepOf(more[|rest|]) == sk;
    forall k | k in done + {sk} ensures exists i :: 0 <= i < |more| && StepOf(more[i]) == k {
      if k in done {
        var i :| 0 <= i < |rest| && StepOf(rest[i]) == k;
        assert more[i] == rest[i];
      }
    }
  }

  // ----- the order of the result

  predicate TupleBefore(a: seq<string>, b: seq<string>) {
    if b == [] then false
    else if a == [] then true
    else Before(a[0], b[0]) || (a[0] == b[0] && TupleBefore(a[1..], b[1..]))
  }

  /** By breakdown tuple, then by step; the event kind does not count. */
  predicate RowBefore(a: Row, b: Row) {
    TupleBefore(a.breakdowns, b.breakdowns) || (a.breakdowns == b.breakdowns && a.stepIndex < b.stepIndex)
  }

  lemma {:induction false} TupleOrder(a: seq<string>, b: seq<string>)
    ensures a == b || TupleBefore(a, b) || TupleBefore(b, a)
    ensures !(TupleBefore(a, b) && TupleBefore(b, a)) && !TupleBefore(a, a)
  {
    if a != [] { TupleOrderTail(a); }
    if a != [] && b != [] {
      BeforeTotal(a[0], b[0]);
      BeforeAsymmetric(a[0], b[0]);
      BeforeAsymmetric(a[0], a[0]);
      if a[0] == b[0] {
        TupleOrder(a[1..], b[1..]);
        assert a == [a[0]] + a[1..] && b == [b[0]] + b[1..];
      }
    }
  }

  lemma {:induction false} TupleOrderTail(a: seq<string>)
    ensures !TupleBefore(a, a)
  {
    if a != [] {
      BeforeAsymmetric(a[0], a[0]);
      TupleOrderTail(a[1..]);
    }
  }

  lemma {:induction false} TupleTransitive(a: seq<string>, b: seq<string>, c: seq<string>)
    requires TupleBefore(a, b) && TupleBefore(b, c)
    ensures TupleBefore(a, c)
  {
    if a != [] {
      BeforeAsymmetric(a[0], a[0]);
      BeforeAsymmetric(b[0], b[0]);
      if Before(a[0], b[0]) && Before(b[0], c[0]) { BeforeTransitive(a[0], b[0], c[0]); }
      if a[0] == b[0] == c[0] { TupleTransitive(a[1..], b[1..], c[1..]); }
    }
  }

  lemma RowOrder()
    ensures WeakOrder(RowBefore)
  {
    hide TupleBefore;
    forall a, b | RowBefore(a, b) ensures !RowBefore(b, a) { TupleOrder(a.breakdowns, b.breakdowns); }
    forall a, b, c | !RowBefore(b, a) && !RowBefore(c, b) ensures !RowBefore(c, a) {
      TupleOrder(a.breakdowns, b.breakdowns);
      TupleOrder(b.breakdowns, c.breakdowns);
      TupleOrder(a.breakdowns, c.breakdowns);
      if TupleBefore(a.breakdowns, b.breakdowns) && TupleBefore(b.breakdowns, c.breakdowns) {
        TupleTransitive(a.breakdowns, b.breakdowns, c.breakdowns);
      }
    }
  }

  // ----- the fold

  /** The rows of the top breakdowns as they were, one `$others` row per folded (step, kind), in order. */
  ghost predicate Folded(rows: seq<Row>, arity: nat, limit: nat, top: set<string>, rest: seq<Row>, out: seq<Row>) {
    && IsTop(Totals(rows), limit, top)
    && IsOthers(OthersOf(Dropped(rows, RowKey, top)), OthersOf(Dropped(rows, RowKey, top)).Keys, arity, rest)
    && multiset(out) == multiset(Kept(rows, RowKey, top) + rest)
    && SortedBy(out, RowBefore)
  }

  method ApplyFunnelTopN(rows: seq<Row>, properties: seq<string>, limit: nat)
    returns (result: seq<Row>)
    ensures exists top, rest :: Folded(rows, |properties|, limit, top, rest, result)
  {
    var totals: map<string, real> := map[];
    for i := 0 to |rows|
      invariant totals == Totals(rows[..i])
    {
      assert rows[..i + 1][..i] == rows[..i];
      var r := rows[i];
      if r.stepIndex == 0 {
        totals := totals[RowKey(r) := (if RowKey(r) in totals then totals[RowKey(r)] else 0.0) + r.value];
      }
    }
    assert rows[..|rows|] == rows;
    var topSet := TopKeys(totals, limit);
    var kept, others := SplitRows(rows, topSet);
    var merged := EmitOthers(others, |properties|);
    RowOrder();
    SortSorts(kept + merged, RowBefore);
    SortKeeps(kept + merged, RowBefore);
    result := Sort(kept + merged, RowBefore);
    assert Folded(rows, |properties|, limit, topSet, merged, result);
  }

  lemma NothingSplit(top: set<string>)
    ensures Kept<Row>([], RowKey, top) == [] && OthersOf(Dropped<Row>([], RowKey, top)) == map[]
  {
  }

  method SplitRows(rows: seq<Row>, top: set<string>) returns (kept: seq<Row>, others: map<StepKey, real>)
    ensures kept == Kept(rows, RowKey, top) && others == OthersOf(Dropped(rows, RowKey, top))
  {
    hide Kept, Dropped, OthersOf, RowKey;
    kept := [];
    others := map[];
    NothingSplit(top);
    for i := 0 to |rows|
      invariant kept == Kept(rows[..i], RowKey, top)
      invariant others == OthersOf(Dropped(rows[..i], RowKey, top))
    {
      var r := rows[i];
      SplitSnoc(rows[..i], r, RowKey, top);
      assert rows[..i + 1] == rows[..i] + [r];
      if RowKey(r) in top {
        kept := kept + [r];
        assert Dropped(rows[..i], RowKey, top) + [] == Dropped(rows[..i], RowKey, top);
      } else {
        OthersSnoc(Dropped(rows[..i], RowKey, top), r);
        assert kept + [] == kept;
        var sk := StepOf(r);
        if sk in others {
          others := others[sk := others[sk] + r.value];
        } else {
          others := others[sk := r.value];
        }
      }
    }
    assert rows[..|rows|] == rows;
  }

  /** The walk over the hash map is in arbitrary order. */
  method EmitOthers(others: map<StepKey, real>, arity: nat) returns (rest: seq<Row>)
    ensures IsOthers(others, others.Keys, arity, rest)
  {
    rest := [];
    var todo := others.Keys;
    ghost var done: set<StepKey> := {};
    while todo != {}
      invariant todo !! done && todo + done == others.Keys
      invariant IsOthers(others, done, arity, rest)
    {
      hide IsOthers;
      var sk :| sk in todo;
      IsOthersMore(others, done, arity, rest, sk);
      todo := todo - {sk};
      done := done + {sk};
      rest := rest + [OthersRow(sk, others[sk], arity)];
    }
    assert done == others.Keys;
  }

  // ----- conservation

  /** Folding changes no step's total. */
  lemma FoldConserves(rows: seq<Row>, arity: nat, limit: nat, top: set<string>, rest: seq<Row>, out: seq<Row>,
                      sk: StepKey)
    requires Folded(rows, arity, limit, top, rest, out)
    ensures StepTotal(out, sk) == StepTotal(rows, sk)
  {
    hide IsTop, SortedBy, IsOthers, Totals, Kept, Dropped, OthersOf, SumBy;
    var kept, dropped := Kept(rows, RowKey, top), Dropped(rows, RowKey, top);
    SumByPermutation(out, kept + rest, AtStep(sk));
    SumByAppend(kept, rest, AtStep(sk));
    SplitSums(rows, RowKey, top, AtStep(sk));
    OthersAre(dropped, sk);
    RestTotal(OthersOf(dropped), arity, rest, sk);
  }

  lemma RestTotal(others: map<StepKey, real>, arity: nat, rest: seq<Row>, sk: StepKey)
    requires IsOthers(others, others.Keys, arity, rest)
    ensures StepTotal(rest, sk) == if sk in others then others[sk] else 0.0
  {
    if sk in others {
      var i :| 0 <= i < |rest| && StepOf(rest[i]) == sk;
      OnlyRow(rest, i, AtStep(sk));
    } else {
      NoRow(rest, AtStep(sk));
    }
  }

  lemma {:induction false} NoRow(rest: seq<Row>, f: Row -> real)
    requires forall i :: 0 <= i < |rest| ==> f(rest[i]) == 0.0
    ensures SumBy(rest, f) == 0.0
  {
    if rest != [] { NoRow(rest[..|rest| - 1], f); }
  }

  lemma {:induction false} OnlyRow(rest: seq<Row>, i: nat, f: Row -> real)
    requires i < |rest| && forall j :: 0 <= j < |rest| && j != i ==> f(rest[j]) == 0.0
    ensures SumBy(rest, f) == f(rest[i])
  {
    var n := |rest| - 1;
    if i < n { OnlyRow(rest[..n], i, f); } else { NoRow(rest[..n], f); }
  }

  // ----- what is kept

  /** A kept breakdown's rows come through untouched, every other row is a `$others` row without timing, at
      most `limit` breakdowns are kept, and each has a step-0 total at least that of every folded one. */
  lemma FoldKeepsTheTop(rows: seq<Row>, arity: nat, limit: nat, top: set<string>, rest: seq<Row>, out: seq<Row>)
    requires Folded(rows, arity, limit, top, rest, out)
    ensures |top| <= limit
    ensures forall r :: r in rows && RowKey(r) in top ==> r in out
    ensures forall r :: r in out ==>
      (r in rows && RowKey(r) in top) || (r.breakdowns == TrendSeries.OthersTuple(arity) && r.timing == None)
    ensures forall a, b :: a in top && b in rows && b.stepIndex == 0 && RowKey(b) !in top ==>
      SumBy(rows, Entering(a)) >= SumBy(rows, Entering(RowKey(b)))
    ensures forall a, b :: a in top && b in rows && b.stepIndex == 0 && RowKey(b) !in top ==>
      SumBy(rows, Entering(a)) == SumBy(rows, Entering(RowKey(b))) ==> Before(a, RowKey(b))
    ensures (exists b :: b in rows && b.stepIndex == 0 && RowKey(b) !in top) ==> |top| == limit
  {
    hide SortedBy, Totals, Kept, Dropped, OthersOf, SumBy, RowKey;
    var kept := Kept(rows, RowKey, top);
    SplitMembers(rows, RowKey, top);
    SameElements(out, kept + rest);
    forall a, b | a in top && b in rows && b.stepIndex == 0 && RowKey(b) !in top
      ensures SumBy(rows, Entering(a)) >= SumBy(rows, Entering(RowKey(b)))
      ensures SumBy(rows, Entering(a)) == SumBy(rows, Entering(RowKey(b))) ==> Before(a, RowKey(b))
    {
      TotalsAre(rows, a);
      TotalsAre(rows, RowKey(b));
    }
    if b :| b in rows && b.stepIndex == 0 && RowKey(b) !in top {
      TotalsAre(rows, RowKey(b));
      assert RowKey(b) in Totals(rows).Keys - top;
      FullTop(Totals(rows), limit, top, RowKey(b));
    }
  }

  lemma FullTop(totals: map<string, real>, limit: nat, top: set<string>, key: string)
    requires IsTop(totals, limit, top) && key in totals && key !in top
    ensures |top| == limit
  {
    var rest := totals.Keys - top;
    assert key in rest && totals.Keys == top + rest;
    assert |totals| == |totals.Keys| == |top| + |rest|;
  }

  /** Equal before position k, and there a is at its end or has the smaller value. */
  predicate DiffersAt(a: seq<string>, b: seq<string>, k: nat) {
    && k <= |a| && k < |b|
    && (forall i :: 0 <= i < k ==> a[i] == b[i])
    && (k == |a| || Before(a[k], b[k]))
  }

  lemma DifferenceShifts(a: seq<string>, b: seq<string>, k: nat)
    requires a != [] && b != [] && a[0] == b[0]
    ensures DiffersAt(a, b, k + 1) <==> DiffersAt(a[1..], b[1..], k)
  {
    var p, q := a[1..], b[1..];
    assert forall i :: 0 <= i < |p| ==> p[i] == a[i + 1];
    assert forall i :: 0 <= i < |q| ==> q[i] == b[i + 1];
    if DiffersAt(p, q, k) {
      forall i | 0 <= i < k + 1 ensures a[i] == b[i] { assert i > 0 ==> p[i - 1] == q[i - 1]; }
    }
  }

  lemma {:induction false} TupleDiffers(a: seq<string>, b: seq<string>) returns (k: nat)
    requires TupleBefore(a, b)
    ensures DiffersAt(a, b, k)
  {
    if a == [] || Before(a[0], b[0]) {
      k := 0;
    } else {
      hide DiffersAt;
      k := TupleDiffers(a[1..], b[1..]);
      DifferenceShifts(a, b, k);
      k := k + 1;
    }
  }

  lemma {:induction false} DifferenceOrders(a: seq<string>, b: seq<string>, k: nat)
    requires DiffersAt(a, b, k)
    ensures TupleBefore(a, b)
  {
    if k > 0 {
      assert a[0] == b[0];
      DifferenceShifts(a, b, k - 1);
      DifferenceOrders(a[1..], b[1..], k - 1);
    }
  }

  /** The order of tuples: at the first difference the smaller value comes first, and a beginning before the whole. */
  lemma TupleBeforeIs(a: seq<string>, b: seq<string>)
    ensures TupleBefore(a, b) <==> exists k: nat :: DiffersAt(a, b, k)
  {
    hide TupleBefore, DiffersAt;
    if TupleBefore(a, b) { var k := TupleDiffers(a, b); }
    if k: nat :| DiffersAt(a, b, k) { DifferenceOrders(a, b, k); }
  }

  /** The result is listed by tuple, and within a tuple by step. */
  lemma ListedInOrder(rows: seq<Row>, arity: nat, limit: nat, top: set<string>, rest: seq<Row>, out: seq<Row>, i: nat,
                      j: nat)
    requires Folded(rows, arity, limit, top, rest, out) && i < j < |out|
    ensures TupleBefore(out[i].breakdowns, out[j].breakdowns) ||
      (out[i].breakdowns == out[j].breakdowns && out[i].stepIndex <= out[j].stepIndex)
  {
    hide IsTop, IsOthers, Totals, Kept, Dropped, OthersOf, TupleBefore;
    TupleOrder(out[i].breakdowns, out[j].breakdowns);
    assert !RowBefore(out[j], out[i]);
  }

  // ----- a folded funnel is still a funnel

  function StageOf(key: string, step: nat): Row -> real {
    (r: Row) => if r.stepIndex == step && RowKey(r) == key then r.value else 0.0
  }

  function AnyStage(step: nat): Row -> real { (r: Row) => if r.stepIndex == step then r.value else 0.0 }

  /** No series gains users from one step to the next. */
  ghost predicate Narrows(rows: seq<Row>) {
    forall key, step: nat :: SumBy(rows, StageOf(key, step + 1)) <= SumBy(rows, StageOf(key, step))
  }

  lemma StageSnoc(rows: seq<Row>, r: Row, key: string, step: nat)
    ensures SumBy(rows + [r], StageOf(key, step)) ==
      SumBy(rows, StageOf(key, step)) + if r.stepIndex == step && RowKey(r) == key then r.value else 0.0
    ensures rows + [] == rows
  {
    SumBySnoc(rows, r, StageOf(key, step));
  }

  lemma NothingSplits(top: set<string>)
    ensures Kept<Row>([], RowKey, top) == [] && Dropped<Row>([], RowKey, top) == []
  {
  }

  lemma {:induction false} StageSplits(rows: seq<Row>, top: set<string>, key: string, step: nat)
    ensures SumBy(Kept(rows, RowKey, top), StageOf(key, step)) ==
      if key in top then SumBy(rows, StageOf(key, step)) else 0.0
    ensures SumBy(Dropped(rows, RowKey, top), StageOf(key, step)) ==
      if key in top then 0.0 else SumBy(rows, StageOf(key, step))
  {
    hide Kept, Dropped, RowKey, SumBy, StageOf;
    if rows == [] {
      NothingSplits(top);
      NoRow([], StageOf(key, step));
    } else {
      var front, r := rows[..|rows| - 1], rows[|rows| - 1];
      StageSplits(front, top, key, step);
      SplitSnoc(front, r, RowKey, top);
      StageSnoc(front, r, key, step);
      StageSnoc(Kept(front, RowKey, top), r, key, step);
      StageSnoc(Dropped(front, RowKey, top), r, key, step);
      assert rows == front + [r];
    }
  }

  lemma {:induction false} OneSeries(rows: seq<Row>, key: string, step: nat)
    ensures SumBy(Kept(rows, RowKey, {key}), AnyStage(step)) == SumBy(rows, StageOf(key, step))
  {
    hide Kept, Dropped, RowKey, SumBy, StageOf;
    if rows == [] {
      NothingSplits({key});
      NoRow([], StageOf(key, step));
      NoRow([], AnyStage(step));
    } else {
      var front, r := rows[..|rows| - 1], rows[|rows| - 1];
      OneSeries(front, key, step);
      SplitSnoc(front, r, RowKey, {key});
      StageSnoc(front, r, key, step);
      SumBySnoc(Kept(front, RowKey, {key}), r, AnyStage(step));
      assert rows == front + [r];
    }
  }

  lemma {:induction false} DroppedIsShorter(rows: seq<Row>, top: set<string>)
    ensures |Dropped(rows, RowKey, top)| <= |rows|
    ensures (exists i :: 0 <= i < |rows| && RowKey(rows[i]) in top) ==> |Dropped(rows, RowKey, top)| < |rows|
  {
    if rows != [] { DroppedIsShorter(rows[..|rows| - 1], top); }
  }

  /** Series that narrow add up to one that narrows. */
  lemma {:induction false} SumNarrows(rows: seq<Row>, step: nat)
    requires Narrows(rows)
    ensures SumBy(rows, AnyStage(step + 1)) <= SumBy(rows, AnyStage(step))
    decreases |rows|
  {
    hide Kept, Dropped, SumBy;
    if rows == [] {
      NoRow(rows, AnyStage(step));
      NoRow(rows, AnyStage(step + 1));
    } else {
      var key := RowKey(rows[0]);
      var others := Dropped(rows, RowKey, {key});
      DroppedIsShorter(rows, {key});
      DroppedNarrows(rows, {key});
      SumNarrows(others, step);
      OneSeries(rows, key, step);
      OneSeries(rows, key, step + 1);
      SplitSums(rows, RowKey, {key}, AnyStage(step));
      SplitSums(rows, RowKey, {key}, AnyStage(step + 1));
      assert SumBy(rows, StageOf(key, step + 1)) <= SumBy(rows, StageOf(key, step));
    }
  }

  lemma DroppedNarrows(rows: seq<Row>, top: set<string>)
    requires Narrows(rows)
    ensures Narrows(Dropped(rows, RowKey, top))
  {
    hide Kept, Dropped, SumBy, StageOf;
    forall key, step: nat
      ensures SumBy(Dropped(rows, RowKey, top), StageOf(key, step + 1)) <=
        SumBy(Dropped(rows, RowKey, top), StageOf(key, step))
    {
      StageSplits(rows, top, key, step);
      StageSplits(rows, top, key, step + 1);
      assert SumBy(rows, StageOf(key, step + 1)) <= SumBy(rows, StageOf(key, step));
    }
  }

  lemma {:induction false} RestStages(rest: seq<Row>, arity: nat, key: string, step: nat)
    requires forall i :: 0 <= i < |rest| ==> rest[i].breakdowns == TrendSeries.OthersTuple(arity)
    ensures SumBy(rest, StageOf(key, step)) ==
      if key == BreakdownKey(TrendSeries.OthersTuple(arity)) then SumBy(rest, AnyStage(step)) else 0.0
  {
    if rest != [] { RestStages(rest[..|rest| - 1], arity, key, step); }
  }

  /** The `$others` rows of a step add up to the folded rows of that step. */
  lemma {:induction false} RestAnyStage(dropped: seq<Row>, arity: nat, rest: seq<Row>, step: nat)
    requires IsOthers(OthersOf(dropped), OthersOf(dropped).Keys, arity, rest)
    ensures SumBy(rest, AnyStage(step)) == SumBy(dropped, AnyStage(step))
  {
    hide OthersOf, SumBy, IsOthers;
    var kinds := KindsAt(rest, step) + KindsAt(dropped, step);
    StageByKind(rest, step, kinds);
    StageByKind(dropped, step, kinds);
    forall kind | kind in kinds
      ensures StepTotal(rest, StepKey(step, kind)) == StepTotal(dropped, StepKey(step, kind))
    {
      OthersAre(dropped, StepKey(step, kind));
      RestTotal(OthersOf(dropped), arity, rest, StepKey(step, kind));
    }
    SameKindSums(rest, dropped, step, kinds);
  }

  function KindsAt(rows: seq<Row>, step: nat): set<string> {
    set i | 0 <= i < |rows| && rows[i].stepIndex == step :: rows[i].eventKind
  }

  ghost function KindSum(rows: seq<Row>, step: nat, kinds: set<string>): real {
    if kinds == {} then 0.0
    else
      var k :| k in kinds;
      StepTotal(rows, StepKey(step, k)) + KindSum(rows, step, kinds - {k})
  }

  lemma {:induction false} SameKindSums(a: seq<Row>, b: seq<Row>, step: nat, kinds: set<string>)
    requires forall k :: k in kinds ==> StepTotal(a, StepKey(step, k)) == StepTotal(b, StepKey(step, k))
    ensures KindSum(a, step, kinds) == KindSum(b, step, kinds)
  {
    hide StepTotal;
    if kinds != {} {
      var k :| k in kinds && KindSum(a, step, kinds) == StepTotal(a, StepKey(step, k)) + KindSum(a, step, kinds - {k})
        && KindSum(b, step, kinds) == StepTotal(b, StepKey(step, k)) + KindSum(b, step, kinds - {k});
      SameKindSums(a, b, step, kinds - {k});
    }
  }

  lemma {:induction false} KindSumSnoc(rows: seq<Row>, r: Row, step: nat, kinds: set<string>)
    ensures KindSum(rows + [r], step, kinds) ==
      KindSum(rows, step, kinds) + if r.stepIndex == step && r.eventKind in kinds then r.value else 0.0
  {
    hide SumBy;
    if kinds != {} {
      var k :| k in kinds &&
        KindSum(rows + [r], step, kinds) ==
          StepTotal(rows + [r], StepKey(step, k)) + KindSum(rows + [r], step, kinds - {k})
        && KindSum(rows, step, kinds) == StepTotal(rows, StepKey(step, k)) + KindSum(rows, step, kinds - {k});
      KindSumSnoc(rows, r, step, kinds - {k});
      SumBySnoc(rows, r, AtStep(StepKey(step, k)));
      assert StepTotal(rows + [r], StepKey(step, k)) ==
        StepTotal(rows, StepKey(step, k)) + if r.stepIndex == step && r.eventKind == k then r.value else 0.0;
      assert KindSum(rows + [r], step, kinds) ==
        StepTotal(rows + [r], StepKey(step, k)) + KindSum(rows + [r], step, kinds - {k});
    }
  }

  lemma {:induction false} StageByKind(rows: seq<Row>, step: nat, kinds: set<string>)
    requires KindsAt(rows, step) <= kinds
    ensures SumBy(rows, AnyStage(step)) == KindSum(rows, step, kinds)
  {
    if rows == [] {
      EmptyKindSum(step, kinds);
    } else {
      var n := |rows| - 1;
      assert rows == rows[..n] + [rows[n]];
      assert rows[n].stepIndex == step ==> rows[n].eventKind in KindsAt(rows, step);
      assert forall i :: 0 <= i < n && rows[..n][i].stepIndex == step ==> rows[i].eventKind in KindsAt(rows, step);
      StageByKind(rows[..n], step, kinds);
      KindSumSnoc(rows[..n], rows[n], step, kinds);
    }
  }

  lemma {:induction false} EmptyKindSum(step: nat, kinds: set<string>)
    ensures KindSum([], step, kinds) == 0.0
  {
    if kinds != {} {
      var k :| k in kinds &&
        KindSum([], step, kinds) == StepTotal([], StepKey(step, k)) + KindSum([], step, kinds - {k});
      EmptyKindSum(step, kinds - {k});
      NoRow([], AtStep(StepKey(step, k)));
      assert KindSum([], step, kinds) == StepTotal([], StepKey(step, k)) + KindSum([], step, kinds - {k});
    }
  }

  /** If no series of the input gains users along the way, none of the result does, `$others` included. */
  lemma FoldedFunnelNarrows(rows: seq<Row>, arity: nat, limit: nat, top: set<string>, rest: seq<Row>, out: seq<Row>)
    requires Folded(rows, arity, limit, top, rest, out) && Narrows(rows)
    ensures Narrows(out)
  {
    hide IsTop, SortedBy, Totals, Kept, Dropped, OthersOf, SumBy, StageOf;
    var dropped := Dropped(rows, RowKey, top);
    DroppedNarrows(rows, top);
    forall key, step: nat ensures SumBy(out, StageOf(key, step + 1)) <= SumBy(out, StageOf(key, step)) {
      OutStage(rows, arity, limit, top, rest, out, key, step);
      OutStage(rows, arity, limit, top, rest, out, key, step + 1);
      SumNarrows(dropped, step);
      assert SumBy(rows, StageOf(key, step + 1)) <= SumBy(rows, StageOf(key, step));
    }
  }

  lemma OutStage(rows: seq<Row>, arity: nat, limit: nat, top: set<string>, rest: seq<Row>, out: seq<Row>,
                 key: string, step: nat)
    requires Folded(rows, arity, limit, top, rest, out)
    ensures SumBy(out, StageOf(key, step)) ==
      (if key in top then SumBy(rows, StageOf(key, step)) else 0.0) +
      (if key == BreakdownKey(TrendSeries.OthersTuple(arity))
       then SumBy(Dropped(rows, RowKey, top), AnyStage(step)) else 0.0)
  {
    hide IsTop, SortedBy, Totals, Kept, Dropped, OthersOf, SumBy, StageOf;
    var kept := Kept(rows, RowKey, top);
    SumByPermutation(out, kept + rest, StageOf(key, step));
    SumByAppend(kept, rest, StageOf(key, step));
    StageSplits(rows, top, key, step);
    RestStages(rest, arity, key, step);
    RestAnyStage(Dropped(rows, RowKey, top), arity, rest, step);
  }
}
