/** Top-K ranking: the query that omits `$others` against the two-pass query that computes it. The
    metric is any function of the rows in a group, the dimension any function of a row. */
module TopK {
  import opened Basics
  import opened Breakdowns

  datatype Out = Out(dim: string, isOthers: bool, value: real)

  /** ORDER BY is_others ASC, value DESC, dim ASC. */
  predicate Ahead(a: Out, b: Out) {
    || (!a.isOthers && b.isOthers)
    || (a.isOthers == b.isOthers && (a.value > b.value || (a.value == b.value && Before(a.dim, b.dim))))
  }

  lemma AheadIsStrictOrder(a: Out, b: Out, c: Out)
    ensures a == b || Ahead(a, b) || Ahead(b, a)
    ensures !(Ahead(a, b) && Ahead(b, a))
    ensures Ahead(a, b) && Ahead(b, c) ==> Ahead(a, c)
  {
    BeforeTotal(a.dim, b.dim);
    BeforeAsymmetric(a.dim, b.dim);
    if Before(a.dim, b.dim) && Before(b.dim, c.dim) { BeforeTransitive(a.dim, b.dim, c.dim); }
  }

  ghost predicate Ascending(s: seq<Out>) {
    forall i, j :: 0 <= i < j < |s| ==> Ahead(s[i], s[j])
  }

  lemma {:induction false} InsertAscends(x: Out, s: seq<Out>)
    requires Ascending(s) && x !in s
    ensures var t := Insert(x, s, Ahead); Ascending(t) && forall y :: y in t <==> y == x || y in s
  {
    InsertKeeps(x, s, Ahead);
    SameElements(Insert(x, s, Ahead), [x] + s);
    if s != [] {
      AheadIsStrictOrder(x, s[0], s[0]);
      if Ahead(s[0], x) {
        assert s == [s[0]] + s[1..];
        InsertAscends(x, s[1..]);
        var rest := Insert(x, s[1..], Ahead);
        forall j | 0 <= j < |rest| ensures Ahead(s[0], rest[j]) {
          if rest[j] != x { HeadIsAhead(s, rest[j]); }
        }
      } else {
        forall j | 0 <= j < |s| ensures Ahead(x, s[j]) { AheadIsStrictOrder(x, s[0], s[j]); }
      }
    }
  }

  lemma HeadIsAhead(s: seq<Out>, x: Out)
    requires Ascending(s) && s != [] && x in s[1..]
    ensures Ahead(s[0], x) && x != s[0]
  {
    var k :| 0 <= k < |s[1..]| && s[1..][k] == x;
    assert Ahead(s[0], s[k + 1]);
    AheadIsStrictOrder(x, x, x);
  }

  lemma TailHas(s: seq<Out>, x: Out)
    requires Ascending(s) && s != []
    ensures x in s[1..] <==> x in s && x != s[0]
  {
    if x in s[1..] { HeadIsAhead(s, x); }
    if x in s && x != s[0] {
      var k :| 0 <= k < |s| && s[k] == x;
      assert s[1..][k - 1] == x;
    }
  }

  /** The rows of a result, in its order. */
  ghost function Ordered(rows: set<Out>): (s: seq<Out>)
    ensures Ascending(s) && forall x :: x in s <==> x in rows
  {
    if rows == {} then []
    else
      var x :| x in rows;
      var rest := Ordered(rows - {x});
      InsertAscends(x, rest);
      Insert(x, rest, Ahead)
  }

  /** A strictly ordered sequence is determined by its elements. */
  lemma {:induction false} OrderIsUnique(s: seq<Out>, t: seq<Out>)
    requires Ascending(s) && Ascending(t) && forall x :: x in s <==> x in t
    ensures s == t
  {
    assert t != [] ==> t[0] in t;
    if s != [] {
      assert s[0] in t && t != [];
      assert t[0] in s;
      if s[0] != t[0] {
        AheadIsStrictOrder(s[0], t[0], t[0]);
        assert false;
      }
      forall x ensures x in s[1..] <==> x in t[1..] {
        TailHas(s, x);
        TailHas(t, x);
      }
      OrderIsUnique(s[1..], t[1..]);
    }
  }

  // ----- the queries over a table of rows

  lemma {:induction false} WhereAgrees<T>(table: seq<T>, p: T -> bool, p': T -> bool)
    requires forall r :: r in table ==> p(r) == p'(r)
    ensures Where(table, p) == Where(table, p')
  {
    if table != [] { WhereAgrees(table[1..], p, p'); }
  }

  function GroupRow<T>(table: seq<T>, dim: T -> string, metric: seq<T> -> real, v: string): Out {
    Out(v, false, metric(Where(table, r => dim(r) == v)))
  }

  /** GROUP BY dim, ranked. */
  ghost function RankedGroups<T>(table: seq<T>, dim: T -> string, metric: seq<T> -> real): seq<Out> {
    Ordered(set r | r in table :: GroupRow(table, dim, metric, dim(r)))
  }

  ghost function Take(s: seq<Out>, limit: nat): seq<Out> { if |s| <= limit then s else s[..limit] }

  /** The single-pass query: rank the groups, keep `limit`. */
  ghost function OmitOthers<T>(table: seq<T>, dim: T -> string, metric: seq<T> -> real, limit: nat): seq<Out> {
    Take(RankedGroups(table, dim, metric), limit)
  }

  /** The top_vals CTE. */
  ghost function TopVals<T>(table: seq<T>, dim: T -> string, metric: seq<T> -> real, limit: nat): set<string> {
    set o | o in Take(RankedGroups(table, dim, metric), limit) :: o.dim
  }

  /** if(dim IN top_vals, dim, '$others') with its is_others flag. */
  ghost function Bucket(top: set<string>, v: string): (string, bool) {
    if v in top then (v, false) else (OTHERS, true)
  }

  ghost function BucketRow<T>(table: seq<T>, dim: T -> string, metric: seq<T> -> real, top: set<string>,
                              b: (string, bool)): Out {
    Out(b.0, b.1, metric(Where(table, r => Bucket(top, dim(r)) == b)))
  }

  /** The two-pass query: everything outside the top collapses into one flagged row. */
  ghost function WithOthers<T>(table: seq<T>, dim: T -> string, metric: seq<T> -> real, limit: nat): seq<Out> {
    var top := TopVals(table, dim, metric, limit);
    Ordered(set r | r in table :: BucketRow(table, dim, metric, top, Bucket(top, dim(r))))
  }

  function NamedOnly(s: seq<Out>): seq<Out> {
    if s == [] then [] else (if s[0].isOthers then [] else [s[0]]) + NamedOnly(s[1..])
  }

  lemma {:induction false} NamedOnlyOrdered(s: seq<Out>)
    requires Ascending(s)
    ensures Ascending(NamedOnly(s)) && forall x :: x in NamedOnly(s) <==> x in s && !x.isOthers
  {
    if s != [] {
      NamedOnlyOrdered(s[1..]);
      assert s == [s[0]] + s[1..];
    }
  }

  lemma TopRow<T>(table: seq<T>, dim: T -> string, metric: seq<T> -> real, top: set<string>, v: string)
    requires v in top
    ensures BucketRow(table, dim, metric, top, (v, false)) == GroupRow(table, dim, metric, v)
  {
    WhereAgrees(table, (r: T) => Bucket(top, dim(r)) == (v, false), (r: T) => dim(r) == v);
  }

  /** The named rows of the two-pass query are the single-pass result, in the same order, whatever
      the metric, the limit and the data, and even when a real value is spelled `$others`. */
  lemma OmittingOthersLosesNothing<T>(table: seq<T>, dim: T -> string, metric: seq<T> -> real, limit: nat)
    ensures NamedOnly(WithOthers(table, dim, metric, limit)) == OmitOthers(table, dim, metric, limit)
  {
    var ranked, fast, all := RankedGroups(table, dim, metric), OmitOthers(table, dim, metric, limit),
                             WithOthers(table, dim, metric, limit);
    var top := TopVals(table, dim, metric, limit);
    NamedOnlyOrdered(all);
    assert Ascending(fast);
    forall x ensures x in fast <==> x in all && !x.isOthers {
      FastRow(table, dim, metric, limit, x);
      if x in all && !x.isOthers {
        var r :| r in table && x == BucketRow(table, dim, metric, top, Bucket(top, dim(r)));
        TopRow(table, dim, metric, top, dim(r));
      }
      if x in fast {
        var r :| r in table && dim(r) == x.dim;
        TopRow(table, dim, metric, top, x.dim);
        assert BucketRow(table, dim, metric, top, Bucket(top, dim(r))) == x;
      }
    }
    OrderIsUnique(NamedOnly(all), fast);
  }

  lemma FastRow<T>(table: seq<T>, dim: T -> string, metric: seq<T> -> real, limit: nat, x: Out)
    ensures x in OmitOthers(table, dim, metric, limit) <==>
            x == GroupRow(table, dim, metric, x.dim) && x.dim in TopVals(table, dim, metric, limit)
    ensures x in OmitOthers(table, dim, metric, limit) ==> exists r :: r in table && dim(r) == x.dim
  {
    var ranked, fast := RankedGroups(table, dim, metric), OmitOthers(table, dim, metric, limit);
    forall o | o in fast ensures o == GroupRow(table, dim, metric, o.dim) && exists r :: r in table && dim(r) == o.dim {
      assert o in ranked;
      var r :| r in table && o == GroupRow(table, dim, metric, dim(r));
    }
    if x == GroupRow(table, dim, metric, x.dim) && x.dim in TopVals(table, dim, metric, limit) {
      var o :| o in fast && o.dim == x.dim;
    }
  }

  /** At most `limit` named rows, and at most one `$others`. */
  lemma AtMostLimit<T>(table: seq<T>, dim: T -> string, metric: seq<T> -> real, limit: nat)
    ensures |NamedOnly(WithOthers(table, dim, metric, limit))| <= limit
    ensures var all := WithOthers(table, dim, metric, limit);
            forall a, b :: a in all && b in all && a.isOthers && b.isOthers ==> a == b
  {
    OmittingOthersLosesNothing(table, dim, metric, limit);
  }

  // ----- the answer in plain terms

  /** Larger value first, ties by name. */
  predicate Leads(value: real, name: string, value': real, name': string) {
    value > value' || (value == value' && Before(name, name'))
  }

  function MetricOf<T>(table: seq<T>, dim: T -> string, metric: seq<T> -> real, v: string): real {
    metric(Where(table, r => dim(r) == v))
  }

  /** A row of the answer is a value of the table with its metric. */
  ghost predicate Lists<T>(table: seq<T>, dim: T -> string, metric: seq<T> -> real, x: Out) {
    !x.isOthers && x.value == MetricOf(table, dim, metric, x.dim) && exists r :: r in table && dim(r) == x.dim
  }

  ghost predicate Descends(s: seq<Out>) {
    forall i, j :: 0 <= i < j < |s| ==> Leads(s[i].value, s[i].dim, s[j].value, s[j].dim)
  }

  /** The value is listed, or the answer is full and every row of it leads the value. */
  ghost predicate Considered<T>(table: seq<T>, dim: T -> string, metric: seq<T> -> real, s: seq<Out>, limit: nat,
                                v: string) {
    (exists x :: x in s && x.dim == v) ||
    (|s| == limit && forall x :: x in s ==> Leads(x.value, x.dim, MetricOf(table, dim, metric, v), v))
  }

  /** The single-pass answer lists values of the table with their metric, the leading one first, and a value is missing
      only where the limit is reached, behind all that are listed. */
  lemma TopLeads<T>(table: seq<T>, dim: T -> string, metric: seq<T> -> real, limit: nat)
    ensures var s := OmitOthers(table, dim, metric, limit);
      && |s| <= limit && Descends(s)
      && (forall x :: x in s ==> Lists(table, dim, metric, x))
      && (forall r :: r in table ==> Considered(table, dim, metric, s, limit, dim(r)))
  {
    hide RankedGroups, Lists, Considered, Descends;
    var s := OmitOthers(table, dim, metric, limit);
    forall x | x in s ensures Lists(table, dim, metric, x) { RowLists(table, dim, metric, limit, x); }
    TopDescends(table, dim, metric, limit);
    forall r | r in table ensures Considered(table, dim, metric, s, limit, dim(r)) {
      TableConsidered(table, dim, metric, limit, dim(r));
    }
  }

  lemma RowLists<T>(table: seq<T>, dim: T -> string, metric: seq<T> -> real, limit: nat, x: Out)
    requires x in OmitOthers(table, dim, metric, limit)
    ensures Lists(table, dim, metric, x)
  {
    hide OmitOthers, TopVals;
    FastRow(table, dim, metric, limit, x);
  }

  lemma TopDescends<T>(table: seq<T>, dim: T -> string, metric: seq<T> -> real, limit: nat)
    ensures Descends(OmitOthers(table, dim, metric, limit)) && |OmitOthers(table, dim, metric, limit)| <= limit
  {
    var ranked, s := RankedGroups(table, dim, metric), OmitOthers(table, dim, metric, limit);
    forall i, j | 0 <= i < j < |s| ensures Leads(s[i].value, s[i].dim, s[j].value, s[j].dim) {
      assert Ahead(ranked[i], ranked[j]);
      assert s[i] in s && s[j] in s;
      RowLists(table, dim, metric, limit, s[i]);
      RowLists(table, dim, metric, limit, s[j]);
    }
  }

  lemma TableConsidered<T>(table: seq<T>, dim: T -> string, metric: seq<T> -> real, limit: nat, v: string)
    requires exists r :: r in table && dim(r) == v
    ensures Considered(table, dim, metric, OmitOthers(table, dim, metric, limit), limit, v)
  {
    var ranked, s := RankedGroups(table, dim, metric), OmitOthers(table, dim, metric, limit);
    var row := GroupRow(table, dim, metric, v);
    var r :| r in table && dim(r) == v;
    assert row in ranked;
    var k :| 0 <= k < |ranked| && ranked[k] == row;
    hide RankedGroups;
    if k < |s| {
      assert s[k] == row && row in s;
    } else {
      forall x | x in s ensures Leads(x.value, x.dim, row.value, row.dim) {
        var i :| 0 <= i < |s| && s[i] == x;
        assert Ahead(ranked[i], ranked[k]) && ranked[i] == x;
        RowLists(table, dim, metric, limit, x);
      }
    }
  }

  /** The two-pass answer has its named rows first, and then, if some value is not named, one row over all such. */
  lemma OthersFollow<T>(table: seq<T>, dim: T -> string, metric: seq<T> -> real, limit: nat)
    ensures var s, names := WithOthers(table, dim, metric, limit), TopVals(table, dim, metric, limit);
      && (forall i :: 0 <= i < |s| - 1 ==> !s[i].isOthers)
      && (forall x :: x in s && x.isOthers ==>
            x == Out("$others", true, metric(Where(table, r => dim(r) !in names))))
      && ((exists x :: x in s && x.isOthers) <==> exists r :: r in table && dim(r) !in names)
  {
    var s, names := WithOthers(table, dim, metric, limit), TopVals(table, dim, metric, limit);
    OthersRow(table, dim, metric, names);
    hide TopVals, BucketRow;
    forall x | x in s && x.isOthers
      ensures x == BucketRow(table, dim, metric, names, (OTHERS, true)) && exists r :: r in table && dim(r) !in names
    {
      var r :| r in table && x == BucketRow(table, dim, metric, names, Bucket(names, dim(r)));
      BucketFlag(table, dim, metric, names, Bucket(names, dim(r)));
    }
    forall i | 0 <= i < |s| - 1 ensures !s[i].isOthers { FlagIsLast(s, i); }
    if r :| r in table && dim(r) !in names {
      BucketFlag(table, dim, metric, names, (OTHERS, true));
      assert BucketRow(table, dim, metric, names, Bucket(names, dim(r))) in s;
    }
  }

  lemma OthersRow<T>(table: seq<T>, dim: T -> string, metric: seq<T> -> real, names: set<string>)
    ensures BucketRow(table, dim, metric, names, (OTHERS, true)) ==
      Out("$others", true, metric(Where(table, r => dim(r) !in names)))
  {
    WhereAgrees(table, (r: T) => Bucket(names, dim(r)) == (OTHERS, true), (r: T) => dim(r) !in names);
  }

  lemma BucketFlag<T>(table: seq<T>, dim: T -> string, metric: seq<T> -> real, names: set<string>, b: (string, bool))
    ensures BucketRow(table, dim, metric, names, b).isOthers == b.1
  {
  }

  lemma FlagIsLast(s: seq<Out>, i: nat)
    requires Ascending(s) && i < |s| - 1
    requires forall x, y :: x in s && y in s && x.isOthers && y.isOthers ==> x == y
    ensures !s[i].isOthers
  {
    if s[i].isOthers {
      var x, y := s[i], s[|s| - 1];
      assert Ahead(x, y) && x in s && y in s;
      AheadIsStrictOrder(x, y, x);
      assert false;
    }
  }
}
