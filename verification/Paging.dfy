/** Keyset paging of the event lists: following the cursors lists a fixed table exactly once. */
module Paging {
  import opened Basics
  import opened Conditions
  import opened ConditionText

  const DEFAULT_PAGE_SIZE := 100
  const MAX_PAGE_SIZE := 1000

  function NormalizePageSize(pageSize: int): (p: nat)
    ensures 1 <= p <= MAX_PAGE_SIZE
    ensures 1 <= pageSize <= MAX_PAGE_SIZE ==> p == pageSize
    ensures pageSize <= 0 ==> p == 100
    ensures pageSize > 1000 ==> p == 1000
  {
    if pageSize <= 0 then DEFAULT_PAGE_SIZE else if pageSize > MAX_PAGE_SIZE then MAX_PAGE_SIZE else pageSize
  }

  // ----- keys and their order

  /** What a list is ordered by, and the id that breaks ties. */
  datatype Key = Key(value: int, id: string)

  ghost predicate StrictTotal(lt: (string, string) -> bool) {
    && (forall a :: !lt(a, a))
    && (forall a, b :: a == b || lt(a, b) || lt(b, a))
    && (forall a, b, c :: lt(a, b) && lt(b, c) ==> lt(a, c))
  }

  predicate Below(a: Key, b: Key, lt: (string, string) -> bool) {
    a.value < b.value || (a.value == b.value && lt(a.id, b.id))
  }

  /** ORDER BY value DESC, id DESC. */
  function Desc<T>(key: T -> Key, lt: (string, string) -> bool): (T, T) -> bool {
    (a: T, b: T) => Below(key(b), key(a), lt)
  }

  function Seek<T>(key: T -> Key, lt: (string, string) -> bool, token: Option<Key>): T -> bool {
    (r: T) => token == None || Below(key(r), token.value, lt)
  }

  function First<T>(s: seq<T>, n: nat): seq<T> { if |s| <= n then s else s[..n] }

  /** What the database answers: the rows past the cursor, in order, at most `limit` of them. */
  function ResultSet<T>(table: seq<T>, key: T -> Key, lt: (string, string) -> bool, token: Option<Key>,
                        limit: nat): seq<T> {
    First(Sort(Where(table, Seek(key, lt, token)), Desc(key, lt)), limit)
  }

  ghost predicate UniqueKeys<T>(table: seq<T>, key: T -> Key) {
    forall i, j :: 0 <= i < j < |table| ==> key(table[i]) != key(table[j])
  }

  function Listing<T>(table: seq<T>, key: T -> Key, lt: (string, string) -> bool): seq<T> { Sort(table, Desc(key, lt)) }

  // ----- the cursor predicate

  function SeekTree(t: Arg, id: Arg): Tree {
    Any([Leaf(Lt("occur_time", t)), All([Leaf(Eq("occur_time", t)), Leaf(Lt("event_id", id))])])
  }

  /** The cursor condition is the lexicographic comparison: on a row whose comparisons with the cursor come out as
      given, it holds exactly when the row's key is below the cursor's. */
  lemma SeekMeansBelow(t: Arg, id: Arg, row: string -> bool, k: Key, c: Key, lt: (string, string) -> bool)
    requires row("occur_time < ?") == (k.value < c.value) && row("occur_time = ?") == (k.value == c.value)
    requires row("event_id < ?") == lt(k.id, c.id)
    ensures Holds(SeekTree(t, id), row) == Some(Below(k, c, lt))
    ensures Compile(SeekTree(t, id)).sql == "(occur_time < ? OR " + "(occur_time = ? AND event_id < ?)" + ")"
    ensures Compile(SeekTree(t, id)).args == [t, t, id]
  {
    hide Holds, Compile;
    Comparisons(t, id);
    SeekShape(Lt("occur_time", t), Eq("occur_time", t), Lt("event_id", id), row);
    SeekSpelling();
  }

  lemma SeekSpelling()
    ensures "(" + "occur_time < ?" + " OR " == "(occur_time < ? OR "
    ensures "(" + "occur_time = ?" + " AND " + "event_id < ?" + ")" == "(occur_time = ? AND event_id < ?)"
  {
  }

  lemma SeekShape(a: Fragment, b: Fragment, c: Fragment, row: string -> bool)
    requires !IsZero(a) && !IsZero(b) && !IsZero(c)
    ensures var tree := Any([Leaf(a), All([Leaf(b), Leaf(c)])]);
            Holds(tree, row) == Some(row(a.sql) || (row(b.sql) && row(c.sql))) &&
            Compile(tree) ==
              Fragment("(" + a.sql + " OR " + ("(" + b.sql + " AND " + c.sql + ")") + ")", a.args + (b.args + c.args))
  {
    var inner, outer := [Leaf(b), Leaf(c)], [Leaf(a), All([Leaf(b), Leaf(c)])];
    PairHolds(inner, row, true);
    PairHolds(outer, row, false);
    PairCompile(inner);
    PairCompile(outer);
    PairCompiles(" AND ", b, c);
    PairCompiles(" OR ", a, And([b, c]));
  }

  lemma Comparisons(t: Arg, id: Arg)
    ensures Lt("occur_time", t) == Fragment("occur_time < ?", [t])
    ensures Eq("occur_time", t) == Fragment("occur_time = ?", [t])
    ensures Lt("event_id", id) == Fragment("event_id < ?", [id])
  {
    assert "occur_time" + " " + "<" + " ?" == "occur_time < ?";
    assert "occur_time" + " " + "=" + " ?" == "occur_time = ?";
    assert "event_id" + " " + "<" + " ?" == "event_id < ?";
  }

  lemma PairHolds(kids: seq<Tree>, row: string -> bool, all: bool)
    requires |kids| == 2 && Holds(kids[0], row).Some? && Holds(kids[1], row).Some?
    ensures HoldsIn(kids, row, all) ==
      Some(if all then Holds(kids[0], row).value && Holds(kids[1], row).value
           else Holds(kids[0], row).value || Holds(kids[1], row).value)
  {
    assert kids[..1] == [kids[0]] && kids[..1][..0] == [];
    assert HoldsIn(kids[..1], row, all) == Holds(kids[0], row);
  }

  lemma PairCompile(kids: seq<Tree>)
    requires |kids| == 2
    ensures CompileAll(kids) == [Compile(kids[0]), Compile(kids[1])]
  {
    assert kids[..1] == [kids[0]] && kids[..1][..0] == [];
    assert CompileAll(kids[..1]) == [] + [Compile(kids[0])];
  }

  lemma PairCompiles(op: string, a: Fragment, b: Fragment)
    requires !IsZero(a) && !IsZero(b)
    ensures Combine(op, [a, b]) == Fragment("(" + a.sql + op + b.sql + ")", a.args + b.args)
  {
    var s := [a, b];
    ActiveOfActive(s);
    assert s[..1] == [a] && ArgsOf([a][..0]) == [];
    assert ArgsOf([a]) == a.args;
    assert Sqls(s) == [a.sql, b.sql] && [a.sql, b.sql][1..] == [b.sql];
    assert Join([a.sql, b.sql], op) == a.sql + op + Join([b.sql], op);
    assert "(" + (a.sql + op + b.sql) + ")" == "(" + a.sql + op + b.sql + ")";
  }

  // ----- seeking continues the list

  lemma DescIsOrder<T(!new)>(key: T -> Key, lt: (string, string) -> bool)
    requires StrictTotal(lt)
    ensures WeakOrder(Desc(key, lt))
  {
    var less := Desc(key, lt);
    forall a, b, c | !less(b, a) && !less(c, b) ensures !less(c, a) { }
  }

  lemma {:induction false} WhereMembers<T>(s: seq<T>, p: T -> bool, x: T)
    requires x in Where(s, p)
    ensures x in s
  {
    if x in Where(s[1..], p) { WhereMembers(s[1..], p, x); }
  }

  lemma {:induction false} InsertThenWhere<T(!new)>(x: T, s: seq<T>, less: (T, T) -> bool, p: T -> bool)
    requires WeakOrder(less) && SortedBy(s, less)
    ensures Where(Insert(x, s, less), p) == if p(x) then Insert(x, Where(s, p), less) else Where(s, p)
  {
    if s != [] {
      var rest := Where(s[1..], p);
      if less(s[0], x) {
        InsertThenWhere(x, s[1..], less, p);
        assert Insert(x, s, less)[1..] == Insert(x, s[1..], less);
        assert ([s[0]] + rest)[1..] == rest && [] + rest == rest;
      } else {
        assert ([x] + s)[1..] == s;
        if rest != [] {
          WhereMembers(s[1..], p, rest[0]);
          assert !less(rest[0], s[0]);
        }
      }
    }
  }

  /** Sorting the rows that meet a condition is picking them from the sorted rows. */
  lemma {:induction false} SortThenWhere<T(!new)>(table: seq<T>, less: (T, T) -> bool, p: T -> bool)
    requires WeakOrder(less)
    ensures Sort(Where(table, p), less) == Where(Sort(table, less), p)
  {
    hide WeakOrder, SortedBy;
    if table != [] {
      var sorted := Sort(table[1..], less);
      SortThenWhere(table[1..], less, p);
      SortSorts(table[1..], less);
      InsertThenWhere(table[0], sorted, less, p);
      var rest := Where(table[1..], p);
      assert ([table[0]] + rest)[1..] == rest && [] + rest == rest;
      assert Where(table, p) == if p(table[0]) then [table[0]] + rest else rest;
    }
  }

  lemma {:induction false} WhereSplit<T>(s: seq<T>, k: nat, p: T -> bool)
    requires k <= |s|
    requires forall i :: 0 <= i < |s| ==> (p(s[i]) <==> k <= i)
    ensures Where(s, p) == s[k..]
  {
    if s != [] {
      if k > 0 {
        WhereSplit(s[1..], k - 1, p);
        assert s[1..][k - 1..] == s[k..];
      } else {
        WhereSplit(s[1..], 0, p);
        assert s[0..] == [s[0]] + s[1..];
      }
    }
  }

  /** Where the list stands after its first k rows. */
  function TokenAt<T>(list: seq<T>, key: T -> Key, k: nat): Option<Key>
    requires k <= |list|
  {
    if k == 0 then None else Some(key(list[k - 1]))
  }

  lemma ListingFacts<T(!new)>(table: seq<T>, key: T -> Key, lt: (string, string) -> bool)
    requires StrictTotal(lt) && UniqueKeys(table, key)
    ensures var list := Listing(table, key, lt);
            multiset(list) == multiset(table) && |list| == |table| && SortedBy(list, Desc(key, lt)) &&
              UniqueKeys(list, key)
  {
    hide Sort, SortedBy;
    var list := Listing(table, key, lt);
    DescIsOrder(key, lt);
    SortSorts(table, Desc(key, lt));
    SortKeeps(table, Desc(key, lt));
    UniqueInOrder(table, list, key);
  }

  lemma UniqueInOrder<T>(table: seq<T>, list: seq<T>, key: T -> Key)
    requires UniqueKeys(table, key) && multiset(list) == multiset(table)
    ensures UniqueKeys(list, key)
  {
    SameElements(list, table);
    assert forall i, j :: 0 <= i < j < |table| ==> key(table[i]) != key(table[j]);
    DistinctByMultiset(list, table);
    forall i, j | 0 <= i < j < |list| ensures key(list[i]) != key(list[j]) {
      assert list[i] in table && list[j] in table && list[i] != list[j];
    }
  }

  lemma SeekSplits<T>(list: seq<T>, key: T -> Key, lt: (string, string) -> bool, k: nat)
    requires StrictTotal(lt) && SortedBy(list, Desc(key, lt)) && UniqueKeys(list, key) && k <= |list|
    ensures Where(list, Seek(key, lt, TokenAt(list, key, k))) == list[k..]
  {
    var p := Seek(key, lt, TokenAt(list, key, k));
    forall i | 0 <= i < |list| ensures p(list[i]) <==> k <= i {
      if k > 0 {
        if i < k - 1 { assert !Desc(key, lt)(list[k - 1], list[i]); }
        if k - 1 < i { assert !Desc(key, lt)(list[i], list[k - 1]); }
      }
    }
    WhereSplit(list, k, p);
  }

  /** The page after the first k rows of the list is the next rows of the list. */
  lemma SeekContinues<T(!new)>(table: seq<T>, key: T -> Key, lt: (string, string) -> bool, k: nat, limit: nat)
    requires StrictTotal(lt) && UniqueKeys(table, key) && k <= |Listing(table, key, lt)|
    ensures ResultSet(table, key, lt, TokenAt(Listing(table, key, lt), key, k), limit) ==
      First(Listing(table, key, lt)[k..], limit)
  {
    hide Sort, StrictTotal, UniqueKeys, Seek, Desc, Where, SortedBy, First;
    var list := Listing(table, key, lt);
    var p := Seek(key, lt, TokenAt(list, key, k));
    ListingFacts(table, key, lt);
    SeekSplits(list, key, lt, k);
    DescIsOrder(key, lt);
    SortThenWhere(table, Desc(key, lt), p);
  }
}
