/** Choosing the breakdowns that keep a series of their own, and sums over rows. */
module TopBreakdowns {
  import opened Basics

  // ----- sums over rows

  function SumBy<T>(s: seq<T>, f: T -> real): real {
    if s == [] then 0.0 else SumBy(s[..|s| - 1], f) + f(s[|s| - 1])
  }

  lemma {:induction false} SumByAppend<T>(a: seq<T>, b: seq<T>, f: T -> real)
    ensures SumBy(a + b, f) == SumBy(a, f) + SumBy(b, f)
  {
    if b == [] {
      assert a + b == a;
    } else {
      SumByAppend(a, b[..|b| - 1], f);
      assert (a + b)[..|a + b| - 1] == a + b[..|b| - 1];
    }
  }

  lemma SumBySnoc<T>(s: seq<T>, x: T, f: T -> real)
    ensures SumBy(s + [x], f) == SumBy(s, f) + f(x)
    ensures s + [] == s
  {
    assert (s + [x])[..|s|] == s;
  }

  lemma SumByWithout<T>(t: seq<T>, k: nat, f: T -> real)
    requires k < |t|
    ensures SumBy(t, f) == SumBy(t[..k] + t[k + 1..], f) + f(t[k])
  {
    hide SumBy;
    assert t == t[..k] + [t[k]] + t[k + 1..];
    SumByAppend(t[..k] + [t[k]], t[k + 1..], f);
    SumBySnoc(t[..k], t[k], f);
    SumByAppend(t[..k], t[k + 1..], f);
  }

  lemma MultisetWithout<T>(t: seq<T>, k: nat)
    requires k < |t|
    ensures multiset(t[..k] + t[k + 1..]) == multiset(t) - multiset{t[k]}
  {
    assert t == t[..k] + [t[k]] + t[k + 1..];
  }

  /** A sum does not depend on the order of the rows. */
  lemma {:induction false} SumByPermutation<T>(s: seq<T>, t: seq<T>, f: T -> real)
    requires multiset(s) == multiset(t)
    ensures SumBy(s, f) == SumBy(t, f)
  {
    hide SumBy;
    if s == [] {
      assert |multiset(t)| == 0;
    } else {
      var n := |s| - 1;
      assert s[n] in multiset(t);
      var k :| 0 <= k < |t| && t[k] == s[n];
      SumByWithout(s, n, f);
      SumByWithout(t, k, f);
      MultisetWithout(s, n);
      MultisetWithout(t, k);
      SumByPermutation(s[..n] + s[n + 1..], t[..k] + t[k + 1..], f);
    }
  }

  // ----- kept and folded rows

  function Kept<T>(rows: seq<T>, key: T -> string, top: set<string>): seq<T> {
    if rows == [] then []
    else
      var r := rows[|rows| - 1];
      Kept(rows[..|rows| - 1], key, top) + if key(r) in top then [r] else []
  }

  function Dropped<T>(rows: seq<T>, key: T -> string, top: set<string>): seq<T> {
    if rows == [] then []
    else
      var r := rows[|rows| - 1];
      Dropped(rows[..|rows| - 1], key, top) + if key(r) in top then [] else [r]
  }

  lemma SplitSnoc<T>(rows: seq<T>, r: T, key: T -> string, top: set<string>)
    ensures Kept(rows + [r], key, top) == Kept(rows, key, top) + if key(r) in top then [r] else []
    ensures Dropped(rows + [r], key, top) == Dropped(rows, key, top) + if key(r) in top then [] else [r]
  {
    var all := rows + [r];
    assert all[..|all| - 1] == rows && all[|all| - 1] == r;
  }

  lemma {:induction false} SplitSums<T>(rows: seq<T>, key: T -> string, top: set<string>, f: T -> real)
    ensures SumBy(rows, f) == SumBy(Kept(rows, key, top), f) + SumBy(Dropped(rows, key, top), f)
  {
    if rows != [] {
      var front, r := rows[..|rows| - 1], rows[|rows| - 1];
      SplitSums(front, key, top, f);
      SumBySnoc(Kept(front, key, top), r, f);
      SumBySnoc(Dropped(front, key, top), r, f);
    }
  }

  lemma {:induction false} SplitMembers<T>(rows: seq<T>, key: T -> string, top: set<string>)
    ensures forall r :: r in Kept(rows, key, top) <==> r in rows && key(r) in top
    ensures forall r :: r in Dropped(rows, key, top) <==> r in rows && key(r) !in top
  {
    if rows != [] {
      var front, last := rows[..|rows| - 1], rows[|rows| - 1];
      SplitMembers(front, key, top);
      assert rows == front + [last];
    }
  }

  // ----- ranking breakdowns by a total

  datatype Total = Total(key: string, amount: real)

  predicate Above(a: Total, b: Total) { a.amount > b.amount || (a.amount == b.amount && Before(a.key, b.key)) }

  lemma AboveIsOrder()
    ensures WeakOrder(Above)
  {
    forall a, b | Above(a, b) ensures !Above(b, a) { BeforeAsymmetric(a.key, b.key); }
    forall a, b, c | !Above(b, a) && !Above(c, b) ensures !Above(c, a) {
      BeforeTotal(a.key, b.key);
      BeforeTotal(b.key, c.key);
      if a.key != b.key && b.key != c.key && Before(a.key, b.key) && Before(b.key, c.key) {
        BeforeTransitive(a.key, b.key, c.key);
      }
      BeforeAsymmetric(a.key, c.key);
    }
  }

  /** `top` holds the `limit` highest totals, ties going to the smaller key. */
  ghost predicate IsTop(totals: map<string, real>, limit: nat, top: set<string>) {
    && top <= totals.Keys
    && |top| == (if |totals| <= limit then |totals| else limit)
    && forall a, b :: a in top && b in totals && b !in top ==> Above(Total(a, totals[a]), Total(b, totals[b]))
  }

  lemma AboveIsOneWay(a: Total, b: Total)
    ensures !(Above(a, b) && Above(b, a))
  {
    BeforeAsymmetric(a.key, b.key);
  }

  lemma SetsDiffer(s: set<string>, t: set<string>)
    requires |s| == |t| && s != t
    ensures s - t != {} && t - s != {}
  {
    assert s == (s - t) + (s * t) && t == (t - s) + (s * t);
    assert |s - t| == |t - s|;
    assert s - t == {} && t - s == {} ==> s == t;
  }

  /** The choice is forced: hash-map order cannot change it. */
  lemma TopIsUnique(totals: map<string, real>, limit: nat, top: set<string>, top': set<string>)
    requires IsTop(totals, limit, top) && IsTop(totals, limit, top')
    ensures top == top'
  {
    hide Above;
    if top != top' {
      SetsDiffer(top, top');
      var a :| a in top - top';
      var b :| b in top' - top;
      AboveIsOneWay(Total(a, totals[a]), Total(b, totals[b]));
      assert false;
    }
  }

  ghost predicate Lists(totals: map<string, real>, keys: set<string>, list: seq<Total>) {
    && (forall t :: t in list <==> t.key in keys && t.key in totals && t.amount == totals[t.key])
    && (forall i, j :: 0 <= i < j < |list| ==> list[i] != list[j])
    && |list| == |keys|
  }

  lemma ListsMore(totals: map<string, real>, keys: set<string>, list: seq<Total>, k: string)
    requires Lists(totals, keys, list) && k in totals && k !in keys
    ensures Lists(totals, keys + {k}, list + [Total(k, totals[k])])
  {
  }

  /** The totals in the order of a walk over the hash map, which is arbitrary. */
  method ListTotals(totals: map<string, real>) returns (list: seq<Total>)
    ensures Lists(totals, totals.Keys, list)
  {
    list := [];
    var todo := totals.Keys;
    assert Lists(totals, {}, list);
    ghost var done: set<string> := {};
    while todo != {}
      invariant todo !! done && todo + done == totals.Keys
      invariant Lists(totals, done, list)
    {
      hide Lists;
      var k :| k in todo;
      ListsMore(totals, done, list, k);
      todo := todo - {k};
      done := done + {k};
      list := list + [Total(k, totals[k])];
    }
    assert done == totals.Keys;
  }

  method TopKeys(totals: map<string, real>, limit: nat) returns (top: set<string>)
    ensures IsTop(totals, limit, top)
  {
    hide Above, Sort, IsTop, Lists, SortedBy;
    var list := ListTotals(totals);
    var sorted := Sort(list, Above);
    SortedLists(totals, list);
    top := {};
    ghost var n := if |sorted| <= limit then |sorted| else limit;
    for i := 0 to |sorted|
      invariant i <= limit && top == FirstKeys(sorted, i)
    {
      if i >= limit { break; }
      top := top + {sorted[i].key};
    }
    assert top == FirstKeys(sorted, n);
    FirstKeysAreTop(totals, sorted, n, limit);
  }

  function FirstKeys(sorted: seq<Total>, n: nat): set<string>
    requires n <= |sorted|
  {
    set i | 0 <= i < n :: sorted[i].key
  }

  lemma SortedLists(totals: map<string, real>, list: seq<Total>)
    requires Lists(totals, totals.Keys, list)
    ensures Lists(totals, totals.Keys, Sort(list, Above)) && SortedBy(Sort(list, Above), Above)
  {
    hide Above, Sort;
    AboveIsOrder();
    SortSorts(list, Above);
    SortKeeps(list, Above);
    var s := Sort(list, Above);
    SameElements(list, s);
    DistinctByMultiset(s, list);
  }

  lemma {:induction false} FirstKeysCount(sorted: seq<Total>, n: nat)
    requires n <= |sorted| && forall i, j :: 0 <= i < j < |sorted| ==> sorted[i].key != sorted[j].key
    ensures |FirstKeys(sorted, n)| == n
  {
    if n > 0 {
      FirstKeysCount(sorted, n - 1);
      assert FirstKeys(sorted, n) == FirstKeys(sorted, n - 1) + {sorted[n - 1].key};
    }
  }

  lemma FirstKeysAreTop(totals: map<string, real>, sorted: seq<Total>, n: nat, limit: nat)
    requires Lists(totals, totals.Keys, sorted) && SortedBy(sorted, Above)
    requires n == if |sorted| <= limit then |sorted| else limit
    ensures IsTop(totals, limit, FirstKeys(sorted, n))
  {
    hide Above;
    FirstKeysCount(sorted, n);
    var top := FirstKeys(sorted, n);
    forall a, b | a in top && b in totals && b !in top
      ensures Above(Total(a, totals[a]), Total(b, totals[b]))
    {
      var i :| 0 <= i < n && sorted[i].key == a;
      assert Total(b, totals[b]) in sorted && sorted[i] == Total(a, totals[a]) by { assert sorted[i] in sorted; }
      var j :| 0 <= j < |sorted| && sorted[j] == Total(b, totals[b]);
      assert i < j;
      AboveIsTotal(sorted[i], sorted[j]);
    }
  }

  lemma AboveIsTotal(a: Total, b: Total)
    ensures a == b || Above(a, b) || Above(b, a)
  {
    BeforeTotal(a.key, b.key);
  }
}
