/** Folding all but the top breakdowns of a retention report into `$others`, whose percentages are
    recomputed from user counts. */
module RetentionFold {
  import opened Basics
  import opened Breakdowns
  import opened TopBreakdowns
  import TrendSeries

  /** `value` is the percentage of the cohort that came back. */
  datatype Row = Row(cohort: int, time: int, value: real, cohortSize: real, breakdowns: seq<string>)

  datatype Cell = Cell(cohort: int, time: int)

  datatype Agg = Agg(retained: real, size: real)

  function RowKey(r: Row): string { BreakdownKey(r.breakdowns) }

  function CellOf(r: Row): Cell { Cell(r.cohort, r.time) }

  /** Users behind a row's percentage. */
  function Retained(r: Row): real { r.value / 100.0 * r.cohortSize }

  function RetainedAt(c: Cell): Row -> real { (r: Row) => if CellOf(r) == c then Retained(r) else 0.0 }

  function SizeAt(c: Cell): Row -> real { (r: Row) => if CellOf(r) == c then r.cohortSize else 0.0 }

  // ----- the rank of a breakdown: its cohort sizes, summed over all its rows

  function Totals(rows: seq<Row>): map<string, real> {
    if rows == [] then map[]
    else
      var t, r := Totals(rows[..|rows| - 1]), rows[|rows| - 1];
      t[RowKey(r) := (if RowKey(r) in t then t[RowKey(r)] else 0.0) + r.cohortSize]
  }

  function SizeOf(key: string): Row -> real { (r: Row) => if RowKey(r) == key then r.cohortSize else 0.0 }

  lemma {:induction false} TotalsAre(rows: seq<Row>, key: string)
    ensures key in Totals(rows) <==> exists i :: 0 <= i < |rows| && RowKey(rows[i]) == key
    ensures SumBy(rows, SizeOf(key)) == if key in Totals(rows) then Totals(rows)[key] else 0.0
  {
    if rows != [] {
      var n := |rows| - 1;
      TotalsAre(rows[..n], key);
      assert RowKey(rows[n]) in Totals(rows);
    }
  }

  // ----- the folded cells

  function AddCell(cells: map<Cell, Agg>, r: Row): map<Cell, Agg> {
    var before := if CellOf(r) in cells then cells[CellOf(r)] else Agg(0.0, 0.0);
    cells[CellOf(r) := Agg(before.retained + Retained(r), before.size + r.cohortSize)]
  }

  function CellsOf(rows: seq<Row>): map<Cell, Agg> {
    if rows == [] then map[] else AddCell(CellsOf(rows[..|rows| - 1]), rows[|rows| - 1])
  }

  lemma {:induction false} CellsAre(rows: seq<Row>, c: Cell)
    ensures c in CellsOf(rows) <==> exists i :: 0 <= i < |rows| && CellOf(rows[i]) == c
    ensures c in CellsOf(rows) ==>
      CellsOf(rows)[c] == Agg(SumBy(rows, RetainedAt(c)), SumBy(rows, SizeAt(c)))
    ensures c !in CellsOf(rows) ==> SumBy(rows, RetainedAt(c)) == 0.0 && SumBy(rows, SizeAt(c)) == 0.0
  {
    hide Retained;
    if rows != [] {
      var n := |rows| - 1;
      CellsAre(rows[..n], c);
      assert CellOf(rows[n]) in CellsOf(rows);
    }
  }

  lemma CellsSnoc(rows: seq<Row>, r: Row)
    ensures CellsOf(rows + [r]) == AddCell(CellsOf(rows), r)
  {
    assert (rows + [r])[..|rows|] == rows;
  }

  function Percentage(agg: Agg): real { if agg.size > 0.0 then agg.retained * 100.0 / agg.size else 0.0 }

  function OthersRow(c: Cell, agg: Agg, arity: nat): Row {
    Row(c.cohort, c.time, Percentage(agg), agg.size, TrendSeries.OthersTuple(arity))
  }

  ghost predicate IsOthers(cells: map<Cell, Agg>, done: set<Cell>, arity: nat, rest: seq<Row>) {
    && (forall i, j :: 0 <= i < j < |rest| ==> CellOf(rest[i]) != CellOf(rest[j]))
    && (forall i :: 0 <= i < |rest| ==>
          var c := CellOf(rest[i]); c in done && c in cells && rest[i] == OthersRow(c, cells[c], arity))
    && (forall c :: c in done ==> exists i :: 0 <= i < |rest| && CellOf(rest[i]) == c)
  }

  lemma IsOthersMore(cells: map<Cell, Agg>, done: set<Cell>, arity: nat, rest: seq<Row>, c: Cell)
    requires IsOthers(cells, done, arity, rest) && c in cells && c !in done
    ensures IsOthers(cells, done + {c}, arity, rest + [OthersRow(c, cells[c], arity)])
  {
    var more := rest + [OthersRow(c, cells[c], arity)];
    assert CellOf(more[|rest|]) == c;
    forall k | k in done + {c} ensures exists i :: 0 <= i < |more| && CellOf(more[i]) == k {
      if k in done {
        var i :| 0 <= i < |rest| && CellOf(rest[i]) == k;
        assert more[i] == rest[i];
      }
    }
  }

  // ----- the fold

  /** The rows of the top breakdowns in their order, then one `$others` row per folded cell, in any order. */
  ghost predicate Folded(rows: seq<Row>, arity: nat, limit: nat, top: set<string>, rest: seq<Row>, out: seq<Row>) {
    && IsTop(Totals(rows), limit, top)
    && IsOthers(CellsOf(Dropped(rows, RowKey, top)), CellsOf(Dropped(rows, RowKey, top)).Keys, arity, rest)
    && out == Kept(rows, RowKey, top) + rest
  }

  method ApplyRetentionTopN(rows: seq<Row>, properties: seq<string>, limit: nat)
    returns (result: seq<Row>)
    ensures exists top, rest :: Folded(rows, |properties|, limit, top, rest, result)
  {
    var totals: map<string, real> := map[];
    for i := 0 to |rows|
      invariant totals == Totals(rows[..i])
    {
      assert rows[..i + 1][..i] == rows[..i];
      var r := rows[i];
      totals := totals[RowKey(r) := (if RowKey(r) in totals then totals[RowKey(r)] else 0.0) + r.cohortSize];
    }
    assert rows[..|rows|] == rows;
    var topSet := TopKeys(totals, limit);
    var kept, cells := SplitRows(rows, topSet);
    var merged := EmitOthers(cells, |properties|);
    result := kept + merged;
    assert Folded(rows, |properties|, limit, topSet, merged, result);
  }

  lemma NothingSplit(top: set<string>)
    ensures Kept<Row>([], RowKey, top) == [] && CellsOf(Dropped<Row>([], RowKey, top)) == map[]
  {
  }

  method SplitRows(rows: seq<Row>, top: set<string>) returns (kept: seq<Row>, cells: map<Cell, Agg>)
    ensures kept == Kept(rows, RowKey, top) && cells == CellsOf(Dropped(rows, RowKey, top))
  {
    hide Kept, Dropped, CellsOf, RowKey, Retained;
    kept := [];
    cells := map[];
    NothingSplit(top);
    for i := 0 to |rows|
      invariant kept == Kept(rows[..i], RowKey, top)
      invariant cells == CellsOf(Dropped(rows[..i], RowKey, top))
    {
      var r := rows[i];
      SplitSnoc(rows[..i], r, RowKey, top);
      assert rows[..i + 1] == rows[..i] + [r];
      if RowKey(r) in top {
        kept := kept + [r];
        assert Dropped(rows[..i], RowKey, top) + [] == Dropped(rows[..i], RowKey, top);
      } else {
        CellsSnoc(Dropped(rows[..i], RowKey, top), r);
        assert kept + [] == kept;
        var ck := CellOf(r);
        var retainedThis := Retained(r);
        if ck in cells {
          cells := cells[ck := Agg(cells[ck].retained + retainedThis, cells[ck].size + r.cohortSize)];
        } else {
          cells := cells[ck := Agg(retainedThis, r.cohortSize)];
        }
      }
    }
    assert rows[..|rows|] == rows;
  }

  method EmitOthers(cells: map<Cell, Agg>, arity: nat) returns (rest: seq<Row>)
    ensures IsOthers(cells, cells.Keys, arity, rest)
  {
    rest := [];
    var todo := cells.Keys;
    ghost var done: set<Cell> := {};
    while todo != {}
      invariant todo !! done && todo + done == cells.Keys
      invariant IsOthers(cells, done, arity, rest)
    {
      hide IsOthers;
      var c :| c in todo;
      IsOthersMore(cells, done, arity, rest, c);
      todo := todo - {c};
      done := done + {c};
      var agg := cells[c];
      var pct := if agg.size > 0.0 then agg.retained * 100.0 / agg.size else 0.0;
      rest := rest + [Row(c.cohort, c.time, pct, agg.size, TrendSeries.OthersTuple(arity))];
    }
    assert done == cells.Keys;
  }

  // ----- conservation

  lemma {:induction false} NoRow(rest: seq<Row>, f: Row -> real)
    requires forall i :: 0 <= i < |rest| ==> f(rest[i]) == 0.0
    ensures SumBy(rest, f) == 0.0
  {
    if rest != [] { NoRow(rest[..|rest| - 1], f); }
  }

  lemma {:induction false} OnlyRow(rest: seq<Row>, i: nat, f: Row -> real)
    requires i < |rest| && forall j :: 0 <= j < |rest| && j != i ==> f(rest[j]) == 0.0
    ensures SumBy(rest, f) == f(rest[i])
  {
    var n := |rest| - 1;
    if i < n { OnlyRow(rest[..n], i, f); } else { NoRow(rest[..n], f); }
  }

  lemma RestAt(cells: map<Cell, Agg>, arity: nat, rest: seq<Row>, c: Cell)
    requires IsOthers(cells, cells.Keys, arity, rest)
    ensures SumBy(rest, SizeAt(c)) == if c in cells then cells[c].size else 0.0
    ensures SumBy(rest, RetainedAt(c)) == if c in cells then Percentage(cells[c]) / 100.0 * cells[c].size else 0.0
  {
    hide Percentage, SumBy;
    if c in cells {
      var i :| 0 <= i < |rest| && CellOf(rest[i]) == c;
      OnlyRow(rest, i, SizeAt(c));
      OnlyRow(rest, i, RetainedAt(c));
    } else {
      NoRow(rest, SizeAt(c));
      NoRow(rest, RetainedAt(c));
    }
  }

  lemma PercentageKeeps(agg: Agg)
    ensures Percentage(agg) / 100.0 * agg.size == if agg.size > 0.0 then agg.retained else 0.0
  {
    if agg.size > 0.0 {
      var x := agg.retained * 100.0 / agg.size;
      assert x * agg.size == agg.retained * 100.0;
      assert x / 100.0 * agg.size == x * agg.size / 100.0;
    }
  }

  /** Folding changes no cell's cohort size, and changes a cell's retained users exactly when the folded
      cohorts there have no positive size although some retained user is recorded. */
  lemma FoldConservesExactly(rows: seq<Row>, arity: nat, limit: nat, top: set<string>, rest: seq<Row>, out: seq<Row>,
                             c: Cell)
    requires Folded(rows, arity, limit, top, rest, out)
    ensures SumBy(out, SizeAt(c)) == SumBy(rows, SizeAt(c))
    ensures SumBy(out, RetainedAt(c)) == SumBy(rows, RetainedAt(c)) <==>
      SumBy(Dropped(rows, RowKey, top), SizeAt(c)) > 0.0 || SumBy(Dropped(rows, RowKey, top), RetainedAt(c)) == 0.0
  {
    hide IsTop, Totals, Kept, Dropped, CellsOf, SumBy, IsOthers, Percentage, Retained;
    var kept, dropped := Kept(rows, RowKey, top), Dropped(rows, RowKey, top);
    SumByAppend(kept, rest, SizeAt(c));
    SumByAppend(kept, rest, RetainedAt(c));
    SplitSums(rows, RowKey, top, SizeAt(c));
    SplitSums(rows, RowKey, top, RetainedAt(c));
    CellsAre(dropped, c);
    RestAt(CellsOf(dropped), arity, rest, c);
    if c in CellsOf(dropped) { PercentageKeeps(CellsOf(dropped)[c]); }
  }

  /** A cohort has no negative size, and none of an empty cohort's users came back: with that, folding keeps
      every cell's retained users. */
  lemma FoldConserves(rows: seq<Row>, arity: nat, limit: nat, top: set<string>, rest: seq<Row>, out: seq<Row>, c: Cell)
    requires Folded(rows, arity, limit, top, rest, out)
    requires forall r :: r in rows ==> r.cohortSize >= 0.0
    ensures SumBy(out, RetainedAt(c)) == SumBy(rows, RetainedAt(c))
  {
    FoldConservesExactly(rows, arity, limit, top, rest, out, c);
    SplitMembers(rows, RowKey, top);
    EmptyCohortsRetainNoOne(Dropped(rows, RowKey, top), c);
  }

  lemma {:induction false} EmptyCohortsRetainNoOne(rows: seq<Row>, c: Cell)
    requires forall r :: r in rows ==> r.cohortSize >= 0.0
    ensures SumBy(rows, SizeAt(c)) >= 0.0
    ensures SumBy(rows, SizeAt(c)) == 0.0 ==> SumBy(rows, RetainedAt(c)) == 0.0
  {
    if rows != [] {
      var r := rows[|rows| - 1];
      EmptyCohortsRetainNoOne(rows[..|rows| - 1], c);
      assert r in rows;
      assert r.cohortSize == 0.0 ==> Retained(r) == 0.0;
    }
  }

  // ----- the recomputed percentage

  /** A `$others` percentage is a weighted average: it lies between bounds that hold of every folded row. */
  lemma OthersIsAnAverage(dropped: seq<Row>, arity: nat, rest: seq<Row>, i: nat, lo: real, hi: real)
    requires IsOthers(CellsOf(dropped), CellsOf(dropped).Keys, arity, rest) && i < |rest|
    requires forall r :: r in dropped && CellOf(r) == CellOf(rest[i]) ==> r.cohortSize >= 0.0 && lo <= r.value <= hi
    ensures rest[i].cohortSize > 0.0 ==> lo <= rest[i].value <= hi
  {
    hide SumBy, CellsOf;
    var c := CellOf(rest[i]);
    CellsAre(dropped, c);
    AverageBounds(dropped, c, lo, hi);
    var agg := CellsOf(dropped)[c];
    if agg.size > 0.0 { QuotientBounds(agg.retained, agg.size, lo, hi); }
  }

  lemma QuotientBounds(retained: real, size: real, lo: real, hi: real)
    requires size > 0.0 && Bounded(size, retained, lo, hi)
    ensures lo <= retained * 100.0 / size <= hi
  {
    var x := retained * 100.0 / size;
    assert x * size == retained * 100.0;
    if x < lo { ScaleLess(x, lo, size); }
    if hi < x { ScaleLess(hi, x, size); }
  }

  lemma ScaleLess(x: real, y: real, size: real)
    requires x < y && size > 0.0
    ensures x * size < y * size
  {
  }

  predicate Bounded(size: real, retained: real, lo: real, hi: real) {
    lo * size <= retained * 100.0 <= hi * size
  }

  lemma NothingBounded(lo: real, hi: real)
    ensures Bounded(0.0, 0.0, lo, hi)
  {
  }

  lemma {:induction false} AverageBounds(rows: seq<Row>, c: Cell, lo: real, hi: real)
    requires forall r :: r in rows && CellOf(r) == c ==> r.cohortSize >= 0.0 && lo <= r.value <= hi
    ensures Bounded(SumBy(rows, SizeAt(c)), SumBy(rows, RetainedAt(c)), lo, hi)
  {
    hide Retained, Bounded;
    if rows == [] {
      NothingBounded(lo, hi);
    } else {
      var front, r := rows[..|rows| - 1], rows[|rows| - 1];
      AverageBounds(front, c, lo, hi);
      assert r in rows;
      if CellOf(r) == c { BoundStep(SumBy(front, SizeAt(c)), SumBy(front, RetainedAt(c)), r, lo, hi); }
    }
  }

  lemma BoundStep(size: real, retained: real, r: Row, lo: real, hi: real)
    requires Bounded(size, retained, lo, hi) && r.cohortSize >= 0.0 && lo <= r.value <= hi
    ensures Bounded(size + r.cohortSize, retained + Retained(r), lo, hi)
  {
    RetainedTimes100(r.value, r.cohortSize);
    Scaled(lo, r.value, r.cohortSize);
    Scaled(r.value, hi, r.cohortSize);
    assert lo * (size + r.cohortSize) == lo * size + lo * r.cohortSize;
    assert hi * (size + r.cohortSize) == hi * size + hi * r.cohortSize;
  }

  lemma RetainedTimes100(v: real, size: real)
    ensures v / 100.0 * size * 100.0 == v * size
  {
  }

  lemma Scaled(x: real, y: real, size: real)
    requires x <= y && size >= 0.0
    ensures x * size <= y * size
  {
  }

  /** A kept breakdown's rows come through untouched, in order and first, and outrank the folded ones. */
  lemma FoldKeepsTheTop(rows: seq<Row>, arity: nat, limit: nat, top: set<string>, rest: seq<Row>, out: seq<Row>)
    requires Folded(rows, arity, limit, top, rest, out)
    ensures |top| <= limit
    ensures forall r :: r in rows && RowKey(r) in top ==> r in out
    ensures forall r :: r in out ==> (r in rows && RowKey(r) in top) || r.breakdowns == TrendSeries.OthersTuple(arity)
    ensures forall a, b :: a in top && b in rows && RowKey(b) !in top ==>
      SumBy(rows, SizeOf(a)) >= SumBy(rows, SizeOf(RowKey(b)))
    ensures forall a, b :: a in top && b in rows && RowKey(b) !in top ==>
      SumBy(rows, SizeOf(a)) == SumBy(rows, SizeOf(RowKey(b))) ==> Before(a, RowKey(b))
  {
    hide Totals, Kept, Dropped, CellsOf, SumBy, RowKey, Percentage;
    SplitMembers(rows, RowKey, top);
    forall a, b | a in top && b in rows && RowKey(b) !in top
      ensures SumBy(rows, SizeOf(a)) >= SumBy(rows, SizeOf(RowKey(b)))
      ensures SumBy(rows, SizeOf(a)) == SumBy(rows, SizeOf(RowKey(b))) ==> Before(a, RowKey(b))
    {
      TotalsAre(rows, a);
      TotalsAre(rows, RowKey(b));
    }
  }
}
