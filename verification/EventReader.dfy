/** The event explorer and the activity feed: a cursor is handed out when a page is full. */
module EventReader {
  import opened Basics
  import opened Paging

  datatype Event = Event(occurTime: int, eventId: string, data: string)

  function EventKey(e: Event): Key { Key(e.occurTime, e.eventId) }

  /** The page the cursor asks for, and the key of its last row when it is full. `idBelow` is the database's order of
      event ids, which need not be that of their text. */
  method GetEventExplorer(table: seq<Event>, idBelow: (string, string) -> bool, pageSize: int, token: Option<Key>)
    returns (events: seq<Event>, next: Option<Key>)
    ensures events == ResultSet(table, EventKey, idBelow, token, NormalizePageSize(pageSize))
    ensures next == if |events| == NormalizePageSize(pageSize) then Some(EventKey(events[|events| - 1])) else None
  {
    var size := NormalizePageSize(pageSize);
    var rows := ResultSet(table, EventKey, idBelow, token, size);
    events := [];
    for i := 0 to |rows|
      invariant events == rows[..i]
    {
      events := events + [rows[i]];
    }
    next := None;
    if |events| == size {
      var last := events[|events| - 1];
      next := Some(Key(last.occurTime, last.eventId));
    }
  }

  /** Newest first; of events at one instant, the one with the higher id first. */
  ghost predicate NewestFirst(events: seq<Event>, idBelow: (string, string) -> bool) {
    forall i, j :: 0 <= i < j < |events| ==> Newer(events[i], events[j], idBelow)
  }

  predicate Newer(a: Event, b: Event, idBelow: (string, string) -> bool) {
    a.occurTime > b.occurTime || (a.occurTime == b.occurTime && !idBelow(a.eventId, b.eventId))
  }

  /** Older than the cursor, or at its instant with a lower id. */
  predicate Past(e: Event, token: Option<Key>, idBelow: (string, string) -> bool) {
    token.Some? ==>
      e.occurTime < token.value.value || (e.occurTime == token.value.value && idBelow(e.eventId, token.value.id))
  }

  lemma SortedIsNewestFirst(events: seq<Event>, idBelow: (string, string) -> bool)
    requires SortedBy(events, Desc(EventKey, idBelow))
    ensures NewestFirst(events, idBelow)
  {
    forall i, j | 0 <= i < j < |events| ensures Newer(events[i], events[j], idBelow)
    {
      assert !Desc(EventKey, idBelow)(events[j], events[i]);
      assert !Below(EventKey(events[i]), EventKey(events[j]), idBelow);
    }
  }

  /** A page, without its keys: the newest rows past the cursor, newest first, and all of them unless the page is
      full. */
  lemma PageMeans(table: seq<Event>, idBelow: (string, string) -> bool, token: Option<Key>, size: nat)
    requires StrictTotal(idBelow)
    ensures var events := ResultSet(table, EventKey, idBelow, token, size);
      && |events| <= size && NewestFirst(events, idBelow)
      && (forall e :: e in events ==> e in table && Past(e, token, idBelow))
      && (|events| < size ==> forall e :: e in table && Past(e, token, idBelow) ==> e in events)
      && (forall e, x :: e in table && Past(e, token, idBelow) && e !in events && x in events ==> Newer(x, e, idBelow))
  {
    var sorted := Sort(Where(table, Seek(EventKey, idBelow, token)), Desc(EventKey, idBelow));
    PastRows(table, idBelow, token);
    hide StrictTotal, Sort, Where, Past, NewestFirst, Newer, Seek, Desc;
    FirstRows(sorted, idBelow, size);
  }

  /** The rows past the cursor, all of them and newest first. */
  lemma PastRows(table: seq<Event>, idBelow: (string, string) -> bool, token: Option<Key>)
    requires StrictTotal(idBelow)
    ensures var sorted := Sort(Where(table, Seek(EventKey, idBelow, token)), Desc(EventKey, idBelow));
      NewestFirst(sorted, idBelow) && forall e :: e in sorted <==> e in table && Past(e, token, idBelow)
  {
    hide StrictTotal, Sort, SortedBy, Where, Desc, Seek, Past, NewestFirst;
    var rows := Where(table, Seek(EventKey, idBelow, token));
    var sorted := Sort(rows, Desc(EventKey, idBelow));
    DescIsOrder(EventKey, idBelow);
    SortSorts(rows, Desc(EventKey, idBelow));
    SortKeeps(rows, Desc(EventKey, idBelow));
    SameElements(sorted, rows);
    WhereHas(table, Seek(EventKey, idBelow, token));
    SortedIsNewestFirst(sorted, idBelow);
    SeekIsPast(token, idBelow);
  }

  lemma FirstRows(sorted: seq<Event>, idBelow: (string, string) -> bool, size: nat)
    requires NewestFirst(sorted, idBelow)
    ensures var events := First(sorted, size);
      && |events| <= size && NewestFirst(events, idBelow) && (|events| < size ==> events == sorted)
      && (forall e :: e in events ==> e in sorted)
      && (forall e, x :: e in sorted && e !in events && x in events ==> Newer(x, e, idBelow))
  {
    hide Newer;
    var events := First(sorted, size);
    forall e, x | e in sorted && e !in events && x in events ensures Newer(x, e, idBelow) {
      var i :| 0 <= i < |events| && events[i] == x;
      var j :| 0 <= j < |sorted| && sorted[j] == e;
      FirstHas(sorted, size, j);
    }
  }

  lemma FirstHas(sorted: seq<Event>, size: nat, j: nat)
    requires j < |sorted|
    ensures sorted[j] !in First(sorted, size) ==> j >= |First(sorted, size)|
  {
    if j < |First(sorted, size)| { assert First(sorted, size)[j] == sorted[j]; }
  }

  lemma SeekIsPast(token: Option<Key>, idBelow: (string, string) -> bool)
    ensures forall e :: Seek(EventKey, idBelow, token)(e) <==> Past(e, token, idBelow)
  {
    forall e: Event ensures Seek(EventKey, idBelow, token)(e) <==> Past(e, token, idBelow) {
      assert Seek(EventKey, idBelow, token)(e) <==> token == None || Below(EventKey(e), token.value, idBelow);
    }
  }

  lemma QuotientIs(n: nat, p: nat, q: nat)
    requires q * p <= n < q * p + p
    ensures n / p == q
  {
    assert n == q * p + (n - q * p);
    UniqueQuotient(n, p, q, n - q * p);
  }

  lemma UniqueQuotient(n: nat, p: nat, q: nat, r: nat)
    requires n == q * p + r && r < p
    ensures n / p == q
  {
    var d := n / p;
    assert n == d * p + n % p;
    if d < q { Ordered(d + 1, q, p); }
    if q < d { Ordered(q + 1, d, p); }
  }

  lemma Ordered(a: nat, b: nat, p: nat)
    requires a <= b
    ensures a * p <= b * p
  {
  }

  lemma FirstOfRest(list: seq<Event>, k: nat, size: nat)
    requires k <= |list|
    ensures First(list[k..], size) == list[k..if |list| - k <= size then |list| else k + size]
  {
  }

  lemma NextToken(list: seq<Event>, k: nat, n: nat)
    requires k + n <= |list|
    ensures list[..k] + list[k..k + n] == list[..k + n]
    ensures n > 0 ==> TokenAt(list, EventKey, k + n) == Some(EventKey(list[k..k + n][n - 1]))
    ensures TokenAt(list, EventKey, 0) == None
  {
  }

  /** Following the cursors from the start: over a table that does not change, with unique keys, every row is
      listed exactly once, newest first, in floor(rows / page size) + 1 pages. */
  method FollowCursors(table: seq<Event>, idBelow: (string, string) -> bool, pageSize: int)
    returns (listed: seq<Event>, pages: nat)
    requires StrictTotal(idBelow) && UniqueKeys(table, EventKey)
    ensures listed == Listing(table, EventKey, idBelow) && multiset(listed) == multiset(table)
    ensures SortedBy(listed, Desc(EventKey, idBelow)) && NewestFirst(listed, idBelow)
    ensures pages == |table| / NormalizePageSize(pageSize) + 1
  {
    hide StrictTotal, UniqueKeys, SortedBy, NewestFirst, Listing, ResultSet, Desc, Sort, NormalizePageSize, First,
      TokenAt;
    var size := NormalizePageSize(pageSize);
    ghost var list := Listing(table, EventKey, idBelow);
    ListingFacts(table, EventKey, idBelow);
    SortedIsNewestFirst(list, idBelow);
    listed := [];
    pages := 0;
    var token: Option<Key> := None;
    var more := true;
    NextToken(list, 0, 0);
    while more
      invariant |listed| <= |list| && listed == list[..|listed|]
      invariant more ==> |listed| == pages * size && token == TokenAt(list, EventKey, |listed|)
      invariant !more ==> listed == list && pages == |table| / size + 1
      decreases |list| - |listed| + if more then 1 else 0
    {
      ghost var k := |listed|;
      SeekContinues(table, EventKey, idBelow, k, size);
      FirstOfRest(list, k, size);
      var events, next := GetEventExplorer(table, idBelow, pageSize, token);
      listed := listed + events;
      NextToken(list, k, |events|);
      token := next;
      more := next.Some?;
      assert (pages + 1) * size == pages * size + size;
      if !more { QuotientIs(|table|, size, pages); }
      pages := pages + 1;
    }
  }
}
