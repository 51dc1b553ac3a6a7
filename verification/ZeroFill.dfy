/** Zero filling of multi-event rollup trends: every event kind gets a row in every grid cell, except
    where the kind was folded and never names the cell's breakdown. */
module ZeroFill {
  import opened Basics
  import opened Breakdowns
  import opened SessionState
  import opened TrendSeries

  /** A grid cell: an instant in Unix nanoseconds and a joined breakdown tuple. */
  datatype Cell = Cell(nanos: int, breakdown: string)

  function CellOf(r: TrendRow): Cell { Cell(r.time, BreakdownKey(r.breakdowns)) }

  function Identity(kind: string, c: Cell): string { kind + NUL + c.breakdown + NUL + FormatInt(c.nanos) }

  function RowIdentity(r: TrendRow): string { Identity(r.kind, CellOf(r)) }

  // ----- what the rows say

  predicate HasIdentity(rows: seq<TrendRow>, id: string) {
    exists i :: 0 <= i < |rows| && RowIdentity(rows[i]) == id
  }

  predicate Names(rows: seq<TrendRow>, kind: string, breakdown: string) {
    exists i :: 0 <= i < |rows| && rows[i].kind == kind && BreakdownKey(rows[i].breakdowns) == breakdown
  }

  predicate Folded(rows: seq<TrendRow>, kind: string) {
    exists i :: 0 <= i < |rows| && rows[i].kind == kind && OTHERS in rows[i].breakdowns
  }

  predicate HasCell(rows: seq<TrendRow>, c: Cell) {
    exists i :: 0 <= i < |rows| && CellOf(rows[i]) == c
  }

  /** The tuple of the first row in a cell. */
  predicate FirstTuple(rows: seq<TrendRow>, c: Cell, tuple: seq<string>) {
    exists i :: 0 <= i < |rows| && CellOf(rows[i]) == c && rows[i].breakdowns == tuple &&
      forall j :: 0 <= j < i ==> CellOf(rows[j]) != c
  }

  /** A value that a folded kind does not name may be inside its `$others`. */
  predicate Wanted(rows: seq<TrendRow>, kind: string, c: Cell) {
    Folded(rows, kind) ==> Names(rows, kind, c.breakdown)
  }

  predicate IsFill(rows: seq<TrendRow>, kinds: seq<string>, r: TrendRow) {
    && r.value == 0.0 && r.kind in kinds
    && FirstTuple(rows, CellOf(r), r.breakdowns) && Wanted(rows, r.kind, CellOf(r))
  }

  predicate NoneRepeated(out: seq<TrendRow>, from: nat) {
    forall i, j :: 0 <= i < j < |out| && from <= j ==> RowIdentity(out[i]) != RowIdentity(out[j])
  }

  ghost predicate CellFull(rows: seq<TrendRow>, kinds: seq<string>, out: seq<TrendRow>, c: Cell) {
    forall kind :: kind in kinds && Wanted(rows, kind, c) ==> HasIdentity(out, Identity(kind, c))
  }

  /** The rows, then exactly one zero row for each wanted combination that has none; in any order, as the
      grid is a hash map. */
  ghost predicate Filled(rows: seq<TrendRow>, kinds: seq<string>, out: seq<TrendRow>) {
    if |kinds| <= 1 || rows == [] then out == rows
    else
      && rows <= out
      && (forall i :: |rows| <= i < |out| ==> IsFill(rows, kinds, out[i]))
      && NoneRepeated(out, |rows|)
      && (forall c :: HasCell(rows, c) ==> CellFull(rows, kinds, out, c))
  }

  // ----- the implementation

  ghost predicate Indexed(rows: seq<TrendRow>, grid: map<Cell, seq<string>>, existing: set<string>,
                          named: map<string, set<string>>, folded: set<string>) {
    && (forall c :: c in grid <==> HasCell(rows, c))
    && (forall c :: c in grid ==> FirstTuple(rows, c, grid[c]))
    && (forall id :: id in existing <==> HasIdentity(rows, id))
    && (forall kind, b :: (kind in named && b in named[kind]) <==> Names(rows, kind, b))
    && (forall kind :: kind in folded <==> Folded(rows, kind))
  }

  lemma HasIdentitySnoc(rows: seq<TrendRow>, r: TrendRow, id: string)
    ensures HasIdentity(rows + [r], id) <==> HasIdentity(rows, id) || RowIdentity(r) == id
  {
    var all := rows + [r];
    assert all[|rows|] == r;
    if HasIdentity(rows, id) {
      var i :| 0 <= i < |rows| && RowIdentity(rows[i]) == id;
      assert all[i] == rows[i];
    }
  }

  lemma NamesSnoc(rows: seq<TrendRow>, r: TrendRow, kind: string, b: string)
    ensures Names(rows + [r], kind, b) <==> Names(rows, kind, b) || (r.kind == kind && BreakdownKey(r.breakdowns) == b)
  {
    var all := rows + [r];
    assert all[|rows|] == r;
    if Names(rows, kind, b) {
      var i :| 0 <= i < |rows| && rows[i].kind == kind && BreakdownKey(rows[i].breakdowns) == b;
      assert all[i] == rows[i];
    }
  }

  lemma FoldedSnoc(rows: seq<TrendRow>, r: TrendRow, kind: string)
    ensures Folded(rows + [r], kind) <==> Folded(rows, kind) || (r.kind == kind && OTHERS in r.breakdowns)
  {
    var all := rows + [r];
    assert all[|rows|] == r;
    if Folded(rows, kind) {
      var i :| 0 <= i < |rows| && rows[i].kind == kind && OTHERS in rows[i].breakdowns;
      assert all[i] == rows[i];
    }
  }

  lemma CellSnoc(rows: seq<TrendRow>, r: TrendRow, c: Cell)
    ensures HasCell(rows + [r], c) <==> HasCell(rows, c) || CellOf(r) == c
    ensures forall tuple :: FirstTuple(rows, c, tuple) ==> FirstTuple(rows + [r], c, tuple)
    ensures !HasCell(rows, c) && CellOf(r) == c ==> FirstTuple(rows + [r], c, r.breakdowns)
  {
    var all := rows + [r];
    assert all[|rows|] == r;
    if HasCell(rows, c) {
      var i :| 0 <= i < |rows| && CellOf(rows[i]) == c;
      assert all[i] == rows[i];
    }
    forall tuple | FirstTuple(rows, c, tuple) ensures FirstTuple(all, c, tuple) {
      var i :| 0 <= i < |rows| && CellOf(rows[i]) == c && rows[i].breakdowns == tuple &&
        forall j :: 0 <= j < i ==> CellOf(rows[j]) != c;
      assert all[i] == rows[i];
    }
    if !HasCell(rows, c) && CellOf(r) == c {
      assert CellOf(all[|rows|]) == c && all[|rows|].breakdowns == r.breakdowns;
    }
  }

  lemma IndexedSnoc(rows: seq<TrendRow>, r: TrendRow, grid: map<Cell, seq<string>>, existing: set<string>,
                    named: map<string, set<string>>, folded: set<string>)
    requires Indexed(rows, grid, existing, named, folded)
    ensures Indexed(rows + [r],
                    if CellOf(r) in grid then grid else grid[CellOf(r) := r.breakdowns],
                    existing + {RowIdentity(r)},
                    AddName(named, r),
                    if OTHERS in r.breakdowns then folded + {r.kind} else folded)
  {
    hide RowIdentity, CellOf, HasCell, FirstTuple, HasIdentity, Names, Folded;
    forall c { CellSnoc(rows, r, c); }
    forall id { HasIdentitySnoc(rows, r, id); }
    forall kind, b { NamesSnoc(rows, r, kind, b); }
    forall kind { FoldedSnoc(rows, r, kind); }
    forall kind, b ensures (kind in AddName(named, r) && b in AddName(named, r)[kind]) <==> Names(rows + [r], kind, b) {
      NamesSnoc(rows, r, kind, b);
    }
  }

  function AddName(named: map<string, set<string>>, r: TrendRow): map<string, set<string>> {
    var before := if r.kind in named then named[r.kind] else {};
    named[r.kind := before + {BreakdownKey(r.breakdowns)}]
  }

  /** The state while the grid is walked: `todo` holds the cells still to visit. */
  ghost predicate Filling(rows: seq<TrendRow>, kinds: seq<string>, out: seq<TrendRow>, existing: set<string>,
                          todo: set<Cell>) {
    && rows <= out
    && (forall i :: |rows| <= i < |out| ==> IsFill(rows, kinds, out[i]))
    && NoneRepeated(out, |rows|)
    && (forall id :: id in existing <==> HasIdentity(out, id))
    && (forall c :: HasCell(rows, c) && c !in todo ==> CellFull(rows, kinds, out, c))
  }

  /** Visiting `kinds[..k]` of cell c is done. */
  ghost predicate CellPart(rows: seq<TrendRow>, kinds: seq<string>, out: seq<TrendRow>, c: Cell, k: nat)
    requires k <= |kinds|
  {
    forall i :: 0 <= i < k && Wanted(rows, kinds[i], c) ==> HasIdentity(out, Identity(kinds[i], c))
  }

  lemma FillingStep(rows: seq<TrendRow>, kinds: seq<string>, out: seq<TrendRow>, existing: set<string>,
                    todo: set<Cell>, c: Cell, k: nat, r: TrendRow)
    requires k < |kinds| && Filling(rows, kinds, out, existing, todo) && CellPart(rows, kinds, out, c, k)
    requires IsFill(rows, kinds, r) && r.kind == kinds[k] && CellOf(r) == c && !HasIdentity(out, RowIdentity(r))
    ensures Filling(rows, kinds, out + [r], existing + {RowIdentity(r)}, todo)
    ensures CellPart(rows, kinds, out + [r], c, k + 1)
  {
    hide IsFill, HasCell, Wanted, Identity, CellOf, HasIdentity;
    forall id { HasIdentitySnoc(out, r, id); }
    forall i, j | 0 <= i < j < |out + [r]| && |rows| <= j
      ensures RowIdentity((out + [r])[i]) != RowIdentity((out + [r])[j])
    {
      if j == |out| { IdentityOfMember(out, i); }
    }
    assert RowIdentity(r) == Identity(kinds[k], c);
  }

  lemma IdentityOfMember(rows: seq<TrendRow>, i: nat)
    requires i < |rows|
    ensures HasIdentity(rows, RowIdentity(rows[i]))
  {
  }

  lemma CellDone(rows: seq<TrendRow>, kinds: seq<string>, out: seq<TrendRow>, existing: set<string>,
                 todo: set<Cell>, c: Cell)
    requires Filling(rows, kinds, out, existing, todo) && CellPart(rows, kinds, out, c, |kinds|)
    ensures Filling(rows, kinds, out, existing, todo - {c})
  {
    hide IsFill, HasCell, Wanted, Identity, HasIdentity, NoneRepeated;
    assert CellFull(rows, kinds, out, c);
  }

  method FillCells(rows: seq<TrendRow>, eventKinds: seq<string>, grid: map<Cell, seq<string>>, before: set<string>,
                   named: map<string, set<string>>, folded: set<string>)
    returns (out: seq<TrendRow>)
    requires |eventKinds| > 1 && rows != [] && Indexed(rows, grid, before, named, folded)
    ensures Filled(rows, eventKinds, out)
  {
    hide HasCell, HasIdentity, Names, Folded, FirstTuple;
    out := rows;
    var existing := before;
    var todo := grid.Keys;
    while todo != {}
      invariant todo <= grid.Keys && Filling(rows, eventKinds, out, existing, todo)
    {
      hide CellFull, NoneRepeated, Filling, CellPart, Identity;
      var gk :| gk in todo;
      assert CellPart(rows, eventKinds, out, gk, 0) by { NoKindYet(rows, eventKinds, out, gk); }
      for k := 0 to |eventKinds|
        invariant Filling(rows, eventKinds, out, existing, todo) && CellPart(rows, eventKinds, out, gk, k)
      {
        var kind := eventKinds[k];
        var unnamed := kind !in named || gk.breakdown !in named[kind];
        var id := Identity(kind, gk);
        var r := TrendRow(gk.nanos, kind, grid[gk], 0.0);
        if unnamed && kind in folded {
          SkipKind(rows, eventKinds, out, gk, k);
        } else if id in existing {
          ExistingKind(rows, eventKinds, out, existing, todo, gk, k);
        } else {
          FillRow(rows, eventKinds, grid, before, named, folded, gk, k);
          ExistingIs(rows, eventKinds, out, existing, todo, id);
          FillingStep(rows, eventKinds, out, existing, todo, gk, k, r);
          out := out + [r];
          existing := existing + {id};
        }
      }
      CellDone(rows, eventKinds, out, existing, todo, gk);
      todo := todo - {gk};
    }
  }

  lemma NoKindYet(rows: seq<TrendRow>, kinds: seq<string>, out: seq<TrendRow>, c: Cell)
    ensures CellPart(rows, kinds, out, c, 0)
  {
  }

  lemma SkipKind(rows: seq<TrendRow>, kinds: seq<string>, out: seq<TrendRow>, c: Cell, k: nat)
    requires k < |kinds| && CellPart(rows, kinds, out, c, k) && !Wanted(rows, kinds[k], c)
    ensures CellPart(rows, kinds, out, c, k + 1)
  {
  }

  lemma ExistingIs(rows: seq<TrendRow>, kinds: seq<string>, out: seq<TrendRow>, existing: set<string>,
                   todo: set<Cell>, id: string)
    requires Filling(rows, kinds, out, existing, todo)
    ensures id in existing <==> HasIdentity(out, id)
  {
  }

  lemma ExistingKind(rows: seq<TrendRow>, kinds: seq<string>, out: seq<TrendRow>, existing: set<string>,
                     todo: set<Cell>, c: Cell, k: nat)
    requires k < |kinds| && Filling(rows, kinds, out, existing, todo) && CellPart(rows, kinds, out, c, k)
    requires Identity(kinds[k], c) in existing
    ensures CellPart(rows, kinds, out, c, k + 1)
  {
    ExistingIs(rows, kinds, out, existing, todo, Identity(kinds[k], c));
  }

  lemma FillRow(rows: seq<TrendRow>, kinds: seq<string>, grid: map<Cell, seq<string>>, existing: set<string>,
                named: map<string, set<string>>, folded: set<string>, c: Cell, k: nat)
    requires k < |kinds| && Indexed(rows, grid, existing, named, folded) && c in grid
    requires kinds[k] in folded ==> kinds[k] in named && c.breakdown in named[kinds[k]]
    ensures IsFill(rows, kinds, TrendRow(c.nanos, kinds[k], grid[c], 0.0))
    ensures CellOf(TrendRow(c.nanos, kinds[k], grid[c], 0.0)) == c
  {
    assert FirstTuple(rows, c, grid[c]);
  }

  lemma NothingIndexed()
    ensures Indexed([], map[], {}, map[], {})
  {
  }

  method FillMultiEventTrendZeros(rows: seq<TrendRow>, eventKinds: seq<string>) returns (out: seq<TrendRow>)
    ensures Filled(rows, eventKinds, out)
  {
    if |eventKinds| <= 1 || |rows| == 0 { return rows; }
    hide Indexed, CellOf, RowIdentity, AddName, Filled;
    var grid: map<Cell, seq<string>> := map[];
    var existing: set<string> := {};
    var named: map<string, set<string>> := map[];
    var folded: set<string> := {};
    NothingIndexed();
    for i := 0 to |rows|
      invariant Indexed(rows[..i], grid, existing, named, folded)
    {
      var r := rows[i];
      IndexedSnoc(rows[..i], r, grid, existing, named, folded);
      assert rows[..i + 1] == rows[..i] + [r];
      if CellOf(r) !in grid { grid := grid[CellOf(r) := r.breakdowns]; }
      existing := existing + {RowIdentity(r)};
      named := AddName(named, r);
      if OTHERS in r.breakdowns { folded := folded + {r.kind}; }
    }
    assert rows[..|rows|] == rows;
    out := FillCells(rows, eventKinds, grid, existing, named, folded);
  }

  // ----- every list of rows can be filled

  ghost function CellsOf(rows: seq<TrendRow>): set<Cell> { set r | r in rows :: CellOf(r) }

  ghost function Missing(rows: seq<TrendRow>, kinds: seq<string>, out: seq<TrendRow>): set<(string, Cell)> {
    set kind, c | kind in kinds && c in CellsOf(rows) && Wanted(rows, kind, c) &&
      !HasIdentity(out, Identity(kind, c)) ::
      (kind, c)
  }

  lemma CellListed(rows: seq<TrendRow>, c: Cell)
    ensures HasCell(rows, c) <==> c in CellsOf(rows)
  {
    hide CellOf;
    if i :| 0 <= i < |rows| && CellOf(rows[i]) == c { assert rows[i] in rows; }
  }

  lemma {:induction false} FirstOfCell(rows: seq<TrendRow>, c: Cell) returns (tuple: seq<string>)
    requires c in CellsOf(rows)
    ensures FirstTuple(rows, c, tuple)
  {
    hide CellOf, Identity;
    var n := |rows| - 1;
    assert rows == rows[..n] + [rows[n]];
    CellSnoc(rows[..n], rows[n], c);
    CellListed(rows[..n], c);
    if c in CellsOf(rows[..n]) {
      tuple := FirstOfCell(rows[..n], c);
    } else {
      tuple := rows[n].breakdowns;
    }
  }

  lemma {:induction false} FillOn(rows: seq<TrendRow>, kinds: seq<string>, part: seq<TrendRow>)
    returns (out: seq<TrendRow>)
    requires |kinds| > 1 && rows != [] && rows <= part && NoneRepeated(part, |rows|)
    requires forall i :: |rows| <= i < |part| ==> IsFill(rows, kinds, part[i])
    ensures Filled(rows, kinds, out)
    decreases |Missing(rows, kinds, part)|
  {
    hide Identity, CellOf, FirstTuple, Wanted;
    if Missing(rows, kinds, part) == {} {
      out := part;
      forall c | HasCell(rows, c) ensures CellFull(rows, kinds, out, c) { NothingMissing(rows, kinds, out, c); }
    } else {
      var pair :| pair in Missing(rows, kinds, part);
      var (kind, c) := pair;
      var tuple := FirstOfCell(rows, c);
      var r := TrendRow(c.nanos, kind, tuple, 0.0);
      TupleCell(rows, c, tuple, kind);
      assert RowIdentity(r) == Identity(kind, c);
      OneFewer(rows, kinds, part, r, kind, c);
      RepeatsNone(part, |rows|, r);
      out := FillOn(rows, kinds, part + [r]);
    }
  }

  lemma NothingMissing(rows: seq<TrendRow>, kinds: seq<string>, out: seq<TrendRow>, c: Cell)
    requires Missing(rows, kinds, out) == {} && HasCell(rows, c)
    ensures CellFull(rows, kinds, out, c)
  {
    hide Identity, CellOf, Wanted, HasIdentity;
    CellListed(rows, c);
    forall kind | kind in kinds && Wanted(rows, kind, c) ensures HasIdentity(out, Identity(kind, c)) {
      assert (kind, c) !in Missing(rows, kinds, out);
    }
  }

  lemma TupleCell(rows: seq<TrendRow>, c: Cell, tuple: seq<string>, kind: string)
    requires FirstTuple(rows, c, tuple)
    ensures CellOf(TrendRow(c.nanos, kind, tuple, 0.0)) == c
  {
  }

  lemma OneFewer(rows: seq<TrendRow>, kinds: seq<string>, part: seq<TrendRow>, r: TrendRow, kind: string, c: Cell)
    requires (kind, c) in Missing(rows, kinds, part) && RowIdentity(r) == Identity(kind, c)
    ensures |Missing(rows, kinds, part + [r])| < |Missing(rows, kinds, part)|
  {
    hide Identity, CellOf, Wanted, HasIdentity, RowIdentity;
    var before, after := Missing(rows, kinds, part), Missing(rows, kinds, part + [r]);
    forall k, d | (k, d) in after ensures (k, d) in before && (k, d) != (kind, c) {
      HasIdentitySnoc(part, r, Identity(k, d));
    }
    assert after <= before - {(kind, c)};
    assert before - {(kind, c)} == after + (before - {(kind, c)} - after);
  }

  lemma RepeatsNone(part: seq<TrendRow>, from: nat, r: TrendRow)
    requires NoneRepeated(part, from) && !HasIdentity(part, RowIdentity(r))
    ensures NoneRepeated(part + [r], from)
  {
    hide RowIdentity;
    var all := part + [r];
    forall i, j | 0 <= i < j < |all| && from <= j ensures RowIdentity(all[i]) != RowIdentity(all[j]) {
      if j == |part| { assert all[i] == part[i]; }
    }
  }

  lemma FillExists(rows: seq<TrendRow>, kinds: seq<string>)
    ensures exists out :: Filled(rows, kinds, out)
  {
    if |kinds| <= 1 || rows == [] {
      assert Filled(rows, kinds, rows);
    } else {
      var out := FillOn(rows, kinds, rows);
    }
  }

  // ----- what filling means

  /** An identity names its kind and cell: event kinds hold no NUL, and a decimal never does. */
  lemma IdentityInjective(k1: string, c1: Cell, k2: string, c2: Cell)
    requires '\0' !in k1 && '\0' !in k2 && Identity(k1, c1) == Identity(k2, c2)
    ensures k1 == k2 && c1 == c2
  {
    var id := Identity(k1, c1);
    var n1, n2 := FormatInt(c1.nanos), FormatInt(c2.nanos);
    DecimalHasNoNul(c1.nanos);
    DecimalHasNoNul(c2.nanos);
    assert id == k1 + NUL + (c1.breakdown + NUL + n1) && id == k2 + NUL + (c2.breakdown + NUL + n2);
    SplitFirst(k1, c1.breakdown + NUL + n1, k2, c2.breakdown + NUL + n2);
    SplitLast(c1.breakdown, n1, c2.breakdown, n2);
    FormatIntInjective(c1.nanos, c2.nanos);
  }

  lemma DecimalHasNoNul(n: int)
    ensures '\0' !in FormatInt(n)
  {
    DigitsRoundTrip(if n < 0 then -n else n);
  }

  /** A kind with a NUL in it can be mistaken for another kind's cell, which then stays empty. */
  lemma IdentityNeedsPlainKinds()
    ensures Identity("a\0b", Cell(0, "c")) == Identity("a", Cell(0, "b\0c"))
  {
    assert "a\0b" + NUL + "c" == "a" + NUL + "b\0c";
  }

  /** Among all kinds and cells an identity names its own if and only if neither the kind nor the breakdown
      has a NUL. */
  lemma IdentityNamesExactly(kind: string, c: Cell)
    ensures (forall kind', c' :: Identity(kind', c') == Identity(kind, c) ==> kind' == kind && c' == c) <==>
      '\0' !in kind && '\0' !in c.breakdown
  {
    hide BreakdownKey, Identity, FormatInt;
    KeyNamesExactly([kind, c.breakdown]);
    assert NulFree([kind, c.breakdown]) <==>
      '\0' !in kind && '\0' !in c.breakdown by { NulFreePair(kind, c.breakdown); }
    if '\0' !in kind && '\0' !in c.breakdown {
      forall kind', c' | Identity(kind', c') == Identity(kind, c) ensures kind' == kind && c' == c {
        IdentityParts(kind', c', kind, c);
        assert [kind', c'.breakdown] == [kind, c.breakdown];
        assert [kind', c'.breakdown][0] == [kind, c.breakdown][0] && [kind', c'.breakdown][1] == [kind, c.breakdown][1];
      }
    } else {
      var b :| |b| == 2 && BreakdownKey(b) == BreakdownKey([kind, c.breakdown]) && b != [kind, c.breakdown];
      assert b == [b[0], b[1]];
      IdentityParts(b[0], Cell(c.nanos, b[1]), kind, c);
    }
  }

  lemma NulFreePair(x: string, y: string)
    ensures NulFree([x, y]) <==> '\0' !in x && '\0' !in y
  {
    assert [x, y][0] == x && [x, y][1] == y;
  }

  lemma PairKey(x: string, y: string)
    ensures BreakdownKey([x, y]) == x + NUL + y
  {
    assert [x, y][1..] == [y] && BreakdownKey([y]) == y;
    assert BreakdownKey([x, y]) == x + NUL + BreakdownKey([y]);
  }

  lemma IdentityParts(k1: string, c1: Cell, k2: string, c2: Cell)
    ensures Identity(k1, c1) == Identity(k2, c2) <==>
      BreakdownKey([k1, c1.breakdown]) == BreakdownKey([k2, c2.breakdown]) && c1.nanos == c2.nanos
  {
    var n1, n2 := FormatInt(c1.nanos), FormatInt(c2.nanos);
    DecimalHasNoNul(c1.nanos);
    DecimalHasNoNul(c2.nanos);
    var p1, p2 := k1 + NUL + c1.breakdown, k2 + NUL + c2.breakdown;
    PairKey(k1, c1.breakdown);
    PairKey(k2, c2.breakdown);
    assert Identity(k1, c1) == p1 + NUL + n1 && Identity(k2, c2) == p2 + NUL + n2;
    if p1 + NUL + n1 == p2 + NUL + n2 {
      SplitLast(p1, n1, p2, n2);
      FormatIntInjective(c1.nanos, c2.nanos);
    }
  }

  predicate HasRow(rows: seq<TrendRow>, kind: string, c: Cell) {
    exists i :: 0 <= i < |rows| && rows[i].kind == kind && CellOf(rows[i]) == c
  }

  ghost predicate PlainKinds(rows: seq<TrendRow>, kinds: seq<string>) {
    (forall k :: k in kinds ==> '\0' !in k) && (forall i :: 0 <= i < |rows| ==> '\0' !in rows[i].kind)
  }

  /** Filling is a conservative closure: it adds zero rows only, at cells that exist, one for each (kind,
      cell) pair that has no row, and skips a pair only when the kind was folded without naming the value. */
  lemma FillClosesTheGrid(rows: seq<TrendRow>, kinds: seq<string>, out: seq<TrendRow>)
    requires Filled(rows, kinds, out) && PlainKinds(rows, kinds) && |kinds| > 1
    ensures rows <= out
    ensures forall i :: |rows| <= i < |out| ==>
      out[i].value == 0.0 && out[i].kind in kinds && HasCell(rows, CellOf(out[i]))
      && !HasRow(rows, out[i].kind, CellOf(out[i]))
    ensures forall i, j :: |rows| <= i < j < |out| ==> out[i].kind != out[j].kind || CellOf(out[i]) != CellOf(out[j])
    ensures forall kind, c :: kind in kinds && HasCell(rows, c) ==>
      (HasRow(out, kind, c) <==> HasRow(rows, kind, c) || !Folded(rows, kind) || Names(rows, kind, c.breakdown))
  {
    hide FormatInt, Identity, BreakdownKey, HasIdentity, Folded, Names;
    if rows != [] {
      forall i | |rows| <= i < |out|
        ensures HasCell(rows, CellOf(out[i])) && !HasRow(rows, out[i].kind, CellOf(out[i]))
      {
        FilledRow(rows, kinds, out, i);
        FilledRowIsNew(rows, kinds, out, i);
      }
      forall kind, c | kind in kinds && HasCell(rows, c)
        ensures HasRow(out, kind, c) <==> HasRow(rows, kind, c) || !Folded(rows, kind) || Names(rows, kind, c.breakdown)
      {
        PairHasRow(rows, kinds, out, kind, c);
      }
    }
  }

  lemma FilledRow(rows: seq<TrendRow>, kinds: seq<string>, out: seq<TrendRow>, i: nat)
    requires Filled(rows, kinds, out) && rows != [] && |kinds| > 1 && |rows| <= i < |out|
    ensures IsFill(rows, kinds, out[i]) && HasCell(rows, CellOf(out[i]))
  {
    var tuple := out[i].breakdowns;
    assert FirstTuple(rows, CellOf(out[i]), tuple);
    var j :| 0 <= j < |rows| && CellOf(rows[j]) == CellOf(out[i]) && rows[j].breakdowns == tuple;
  }

  lemma FilledRowIsNew(rows: seq<TrendRow>, kinds: seq<string>, out: seq<TrendRow>, i: nat)
    requires Filled(rows, kinds, out) && rows != [] && |kinds| > 1 && |rows| <= i < |out|
    ensures !HasIdentity(rows, RowIdentity(out[i]))
    ensures !HasRow(rows, out[i].kind, CellOf(out[i]))
  {
    assert forall j :: 0 <= j < |rows| ==> rows[j] == out[j];
  }

  lemma PairHasRow(rows: seq<TrendRow>, kinds: seq<string>, out: seq<TrendRow>, kind: string, c: Cell)
    requires Filled(rows, kinds, out) && PlainKinds(rows, kinds) && rows != [] && |kinds| > 1
    requires kind in kinds && HasCell(rows, c)
    ensures HasRow(out, kind, c) <==> HasRow(rows, kind, c) || Wanted(rows, kind, c)
  {
    hide FormatInt, Identity, BreakdownKey, Folded, Names;
    assert forall j :: 0 <= j < |rows| ==> rows[j] == out[j];
    if Wanted(rows, kind, c) {
      assert CellFull(rows, kinds, out, c);
      var i :| 0 <= i < |out| && RowIdentity(out[i]) == Identity(kind, c);
      assert '\0' !in out[i].kind by {
        if i >= |rows| { assert IsFill(rows, kinds, out[i]); } else { assert rows[i] == out[i]; }
      }
      IdentityInjective(out[i].kind, CellOf(out[i]), kind, c);
    }
    if HasRow(rows, kind, c) {
      var i :| 0 <= i < |rows| && rows[i].kind == kind && CellOf(rows[i]) == c;
      assert out[i] == rows[i];
    }
    if HasRow(out, kind, c) && !HasRow(rows, kind, c) {
      var i :| 0 <= i < |out| && out[i].kind == kind && CellOf(out[i]) == c;
      assert IsFill(rows, kinds, out[i]);
    }
  }

  /** Filling twice equals filling once. */
  lemma FillIsIdempotent(rows: seq<TrendRow>, kinds: seq<string>, out: seq<TrendRow>, again: seq<TrendRow>)
    requires Filled(rows, kinds, out) && Filled(out, kinds, again)
    ensures again == out
  {
    hide Identity, BreakdownKey, HasIdentity;
    if |kinds| > 1 && rows != [] && |again| > |out| {
      var r := again[|out|];
      var c := CellOf(r);
      FilledRow(out, kinds, again, |out|);
      FilledCell(rows, kinds, out, c);
      FilledWanted(rows, kinds, out, r.kind, c);
      assert CellFull(rows, kinds, out, c);
      FilledRowIsNew(out, kinds, again, |out|);
      assert false;
    }
    assert |again| <= |out| ==> again == out;
  }

  lemma FilledCell(rows: seq<TrendRow>, kinds: seq<string>, out: seq<TrendRow>, c: Cell)
    requires Filled(rows, kinds, out) && rows != [] && |kinds| > 1 && HasCell(out, c)
    ensures HasCell(rows, c)
  {
    var i :| 0 <= i < |out| && CellOf(out[i]) == c;
    if i >= |rows| { FilledRow(rows, kinds, out, i); } else { assert rows[i] == out[i]; }
  }

  lemma FilledWanted(rows: seq<TrendRow>, kinds: seq<string>, out: seq<TrendRow>, kind: string, c: Cell)
    requires Filled(rows, kinds, out) && rows != [] && |kinds| > 1 && Wanted(out, kind, c)
    ensures Wanted(rows, kind, c)
  {
    if Folded(rows, kind) {
      var i :| 0 <= i < |rows| && rows[i].kind == kind && OTHERS in rows[i].breakdowns;
      assert out[i] == rows[i];
      var j :| 0 <= j < |out| && out[j].kind == kind && BreakdownKey(out[j].breakdowns) == c.breakdown;
      if j >= |rows| {
        assert IsFill(rows, kinds, out[j]) && CellOf(out[j]).breakdown == c.breakdown;
      } else {
        assert rows[j] == out[j];
      }
    }
  }

  /** Filling changes no series total: a series that was there keeps its total, and one that filling adds has
      total 0. */
  lemma FillKeepsTotals(rows: seq<TrendRow>, kinds: seq<string>, out: seq<TrendRow>, key: SeriesKey)
    requires Filled(rows, kinds, out)
    ensures key in EntriesOf(rows) ==> key in EntriesOf(out) && EntriesOf(out)[key].total == EntriesOf(rows)[key].total
    ensures key in EntriesOf(out) && key !in EntriesOf(rows) ==> EntriesOf(out)[key].total == 0.0
  {
    hide EntriesOf;
    ZerosKeepTotals(rows, out[|rows|..], key);
    assert rows + out[|rows|..] == out;
  }

  lemma {:induction false} ZerosKeepTotals(rows: seq<TrendRow>, zeros: seq<TrendRow>, key: SeriesKey)
    requires forall i :: 0 <= i < |zeros| ==> zeros[i].value == 0.0
    ensures var all := EntriesOf(rows + zeros);
            (key in EntriesOf(rows) ==> key in all && all[key].total == EntriesOf(rows)[key].total) &&
            (key in all && key !in EntriesOf(rows) ==> all[key].total == 0.0)
  {
    hide BreakdownKey;
    if zeros == [] {
      assert rows + zeros == rows;
    } else {
      var n := |zeros| - 1;
      ZerosKeepTotals(rows, zeros[..n], key);
      assert (rows + zeros)[..|rows + zeros| - 1] == rows + zeros[..n];
      assert (rows + zeros)[|rows + zeros| - 1] == zeros[n];
    }
  }
}
