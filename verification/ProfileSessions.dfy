/** A profile's session list: one row past the page is fetched, and the cursor carries a value computed outside the
    database. */
module ProfileSessions {
  import opened Basics
  import opened Paging

  const NANOS_PER_MILLI := 1_000_000

  /** Times are nanoseconds since 1970; the database stores whole milliseconds. */
  datatype Session = Session(id: string, startedAt: int, endedAt: int, eventCount: int)

  datatype Order = StartedAt | Duration | EventCount | Unknown(name: string)

  function Normalize(order: Order): (o: Order)
    ensures !o.Unknown? && (!order.Unknown? ==> o == order) && (order.Unknown? ==> o == StartedAt)
  {
    if order.Unknown? then StartedAt else order
  }

  function Millis(t: int): int { t / NANOS_PER_MILLI }

  /** Go's integer division truncates. */
  function TruncatedMillis(d: int): int { if d < 0 then -(-d / NANOS_PER_MILLI) else d / NANOS_PER_MILLI }

  /** The value the database orders by: a difference of truncations. */
  function OrderValue(order: Order, s: Session): int {
    match order
    case Duration => Millis(s.endedAt) - Millis(s.startedAt)
    case EventCount => s.eventCount
    case _ => Millis(s.startedAt)
  }

  /** The value put into a cursor: a truncation of the difference. */
  function SortValue(order: Order, s: Session): int {
    match order
    case Duration => TruncatedMillis(s.endedAt - s.startedAt)
    case EventCount => s.eventCount
    case _ => Millis(s.startedAt)
  }

  /** The two values differ by at most one, and agree exactly when the end does not fall earlier within its
      millisecond than the start within its own; so they agree on whole milliseconds. */
  lemma ValuesAgreeExactly(order: Order, s: Session)
    requires s.startedAt <= s.endedAt
    ensures 0 <= OrderValue(order, s) - SortValue(order, s) <= 1
    ensures OrderValue(order, s) == SortValue(order, s) <==>
      order != Duration || s.startedAt % NANOS_PER_MILLI <= s.endedAt % NANOS_PER_MILLI
  {
    var n := NANOS_PER_MILLI;
    var a, b := s.startedAt, s.endedAt;
    assert a == n * (a / n) + a % n && b == n * (b / n) + b % n;
    assert b - a == n * (b / n - a / n) + (b % n - a % n);
  }

  predicate Stored(s: Session) {
    s.startedAt % NANOS_PER_MILLI == 0 && s.endedAt % NANOS_PER_MILLI == 0 && s.startedAt <= s.endedAt
    && s.eventCount > 0 && s.id != ""
  }

  function OrderKey(order: Order): Session -> Key { (s: Session) => Key(OrderValue(order, s), s.id) }

  datatype Cursor = Cursor(order: Order, value: int, id: string)

  function CursorOf(order: Order, s: Session): Cursor { Cursor(order, SortValue(order, s), s.id) }

  datatype Page = Page(sessions: seq<Session>, next: Option<Cursor>) | SortMismatch

  /** What decoding a page token accepts. */
  predicate Accepted(c: Cursor) {
    c.id != "" &&
    match c.order
    case StartedAt => true
    case EventCount => c.value > 0
    case Duration => c.value >= 0
    case Unknown(_) => false
  }

  /** Every cursor that is handed out is accepted back. */
  lemma IssuedCursorsAreAccepted(order: Order, s: Session)
    requires Stored(s)
    ensures Accepted(CursorOf(Normalize(order), s))
  {
  }

  function Token(token: Option<Cursor>): Option<Key> {
    match token case None => None case Some(c) => Some(Key(c.value, c.id))
  }

  function PageOf(table: seq<Session>, order: Order, pageSize: int, token: Option<Cursor>): Page {
    var o, size := Normalize(order), NormalizePageSize(pageSize);
    if token.Some? && token.value.order != o then SortMismatch
    else
      var rows := ResultSet(table, OrderKey(o), Before, Token(token), size + 1);
      if |rows| > size then Page(rows[..size], Some(CursorOf(o, rows[size - 1]))) else Page(rows, None)
  }

  method GetProfileSessions(table: seq<Session>, order: Order, pageSize: int, token: Option<Cursor>) returns (p: Page)
    ensures p == PageOf(table, order, pageSize, token)
  {
    hide ResultSet, Before, OrderValue, NormalizePageSize;
    var sort := Normalize(order);
    if token.Some? && token.value.order != sort { return SortMismatch; }
    var size := NormalizePageSize(pageSize);
    var rows := ResultSet(table, OrderKey(sort), Before, Token(token), size + 1);
    var sessions: seq<Session> := [];
    for i := 0 to |rows|
      invariant sessions == rows[..i]
    {
      sessions := sessions + [rows[i]];
    }
    assert rows[..|rows|] == rows;
    var next: Option<Cursor> := None;
    if |sessions| > size {
      sessions := sessions[..size];
      var last := sessions[|sessions| - 1];
      next := Some(Cursor(sort, SortValue(sort, last), last.id));
    }
    p := Page(sessions, next);
  }

  /** What the list is ordered by, in plain terms and each with the higher value first: the whole milliseconds of the
      start, the difference of those of end and start, or the number of events. */
  ghost predicate AheadOf(order: Order, a: Session, b: Session) {
    match order
    case Duration =>
      a.endedAt / 1_000_000 - a.startedAt / 1_000_000 >= b.endedAt / 1_000_000 - b.startedAt / 1_000_000
    case EventCount => a.eventCount >= b.eventCount
    case _ => a.startedAt / 1_000_000 >= b.startedAt / 1_000_000
  }

  /** The list has the sessions of the table, ordered as asked; an unknown order is by start. */
  lemma OrderedAsAsked(table: seq<Session>, order: Order)
    ensures var list := Listing(table, OrderKey(Normalize(order)), Before);
      && multiset(list) == multiset(table)
      && forall i, j :: 0 <= i < j < |list| ==> AheadOf(order, list[i], list[j])
  {
    hide Before;
    var o := Normalize(order);
    var list := Listing(table, OrderKey(o), Before);
    BeforeIsTotal();
    DescIsOrder(OrderKey(o), Before);
    SortSorts(table, Desc(OrderKey(o), Before));
    SortKeeps(table, Desc(OrderKey(o), Before));
    hide Sort, StrictTotal;
    forall i, j | 0 <= i < j < |list| ensures AheadOf(order, list[i], list[j]) {
      assert !Desc(OrderKey(o), Before)(list[j], list[i]);
    }
  }

  lemma BeforeIsTotal()
    ensures StrictTotal(Before)
  {
    forall a { BeforeAsymmetric(a, a); }
    forall a, b { BeforeTotal(a, b); }
    forall a, b, c | Before(a, b) && Before(b, c) ensures Before(a, c) { BeforeTransitive(a, b, c); }
  }

  /** One row per session id. */
  ghost predicate OneRowEach(table: seq<Session>) {
    forall i, j :: 0 <= i < j < |table| ==> table[i].id != table[j].id
  }

  /** The page after the first k sessions of the list. */
  lemma NextPage(table: seq<Session>, order: Order, pageSize: int, token: Option<Cursor>, list: seq<Session>, k: nat)
    requires OneRowEach(table) && (forall i :: 0 <= i < |table| ==> Stored(table[i]))
    requires list == Listing(table, OrderKey(Normalize(order)), Before) && k <= |list|
    requires token == if k == 0 then None else Some(CursorOf(Normalize(order), list[k - 1]))
    ensures var size := NormalizePageSize(pageSize);
      PageOf(table, order, pageSize, token) ==
      if |list| - k > size then Page(list[k..k + size], Some(CursorOf(Normalize(order), list[k + size - 1])))
      else Page(list[k..], None)
  {
    hide Sort, StrictTotal, Before, SortedBy, Desc, Seek, ResultSet, First, Normalize, NormalizePageSize, OrderValue,
      SortValue;
    var o, size := Normalize(order), NormalizePageSize(pageSize);
    BeforeIsTotal();
    assert UniqueKeys(table, OrderKey(o));
    CursorIsKey(table, o, list, k);
    assert Token(token) == TokenAt(list, OrderKey(o), k);
    SeekContinues(table, OrderKey(o), Before, k, size + 1);
    FirstTwice(list, k, size);
  }

  /** On stored times the cursor of a session is its key in the database's order. */
  lemma CursorIsKey(table: seq<Session>, order: Order, list: seq<Session>, k: nat)
    requires OneRowEach(table) && (forall i :: 0 <= i < |table| ==> Stored(table[i]))
    requires list == Listing(table, OrderKey(order), Before) && k <= |list|
    ensures |list| == |table|
    ensures k > 0 ==> Key(SortValue(order, list[k - 1]), list[k - 1].id) == OrderKey(order)(list[k - 1])
  {
    hide Sort, StrictTotal, Before, SortedBy, Desc;
    BeforeIsTotal();
    assert UniqueKeys(table, OrderKey(order));
    ListingFacts(table, OrderKey(order), Before);
    SameElements(table, list);
    if k > 0 {
      assert list[k - 1] in list;
      ValuesAgreeExactly(order, list[k - 1]);
    }
  }

  lemma FirstTwice(list: seq<Session>, k: nat, size: nat)
    requires k <= |list|
    ensures |First(list[k..], size + 1)| > size <==> |list| - k > size
    ensures |list| - k > size ==> First(list[k..], size + 1)[..size] == list[k..k + size]
    ensures |list| - k <= size ==> First(list[k..], size + 1) == list[k..]
  {
  }

  /** Following the cursors lists every session exactly once, highest value first, and only a profile without
      sessions has an empty page: a cursor is never handed out for nothing. */
  method FollowCursors(table: seq<Session>, order: Order, pageSize: int)
    returns (listed: seq<Session>, pages: nat)
    requires OneRowEach(table) && forall i :: 0 <= i < |table| ==> Stored(table[i])
    ensures listed == Listing(table, OrderKey(Normalize(order)), Before) && multiset(listed) == multiset(table)
    ensures var size := NormalizePageSize(pageSize);
      if table == [] then pages == 1 else (pages - 1) * size < |table| <= pages * size
  {
    hide OneRowEach, Stored, Listing, PageOf, NormalizePageSize, Normalize, FullPages, PagesOf, CursorOf;
    var size := NormalizePageSize(pageSize);
    ghost var list := Listing(table, OrderKey(Normalize(order)), Before);
    ListedOnce(table, order);
    listed := [];
    pages := 0;
    var token: Option<Cursor> := None;
    var more := true;
    NoPages(size);
    while more
      invariant |listed| <= |list| && listed == list[..|listed|]
      invariant more ==> FullPages(|listed|, pages, size) && (pages > 0 ==> |listed| < |list|)
      invariant more ==> token == if listed == [] then None else Some(CursorOf(Normalize(order), list[|listed| - 1]))
      invariant !more ==> listed == list && pages > 0
      invariant !more ==> PagesOf(|table|, pages, size)
      decreases |list| - |listed| + if more then 1 else 0
    {
      ghost var k := |listed|;
      NextPage(table, order, pageSize, token, list, k);
      MorePages(k, pages, size, |table|);
      var p := GetProfileSessions(table, order, pageSize, token);
      listed := listed + p.sessions;
      token := p.next;
      more := p.next.Some?;
      PrefixGrows(list, k, |p.sessions|);
      pages := pages + 1;
    }
    PagesAre(|table|, pages, size);
  }

  predicate FullPages(listed: nat, pages: nat, size: nat) { listed == pages * size && (pages > 0 <==> listed > 0) }

  /** The number of pages for n sessions: never one more than they fill, but one for none. */
  predicate PagesOf(n: nat, pages: nat, size: nat) {
    pages > 0 && if n == 0 then pages == 1 else (pages - 1) * size < n <= pages * size
  }

  lemma PrefixGrows(list: seq<Session>, k: nat, n: nat)
    requires k + n <= |list|
    ensures list[..k] + list[k..k + n] == list[..k + n]
    ensures k + n == |list| ==> list[k..] == list[k..k + n] && list[..k + n] == list
  {
  }

  lemma NoPages(size: nat)
    ensures FullPages(0, 0, size)
  {
  }

  lemma MorePages(listed: nat, pages: nat, size: nat, n: nat)
    requires FullPages(listed, pages, size) && listed <= n && (pages > 0 ==> listed < n) && size > 0
    ensures FullPages(listed + size, pages + 1, size)
    ensures n - listed <= size ==> PagesOf(n, pages + 1, size)
  {
    assert (pages + 1) * size == pages * size + size;
  }

  lemma PagesAre(n: nat, pages: nat, size: nat)
    requires PagesOf(n, pages, size)
    ensures if n == 0 then pages == 1 else (pages - 1) * size < n <= pages * size
  {
  }

  lemma ListedOnce(table: seq<Session>, order: Order)
    requires OneRowEach(table)
    ensures var list := Listing(table, OrderKey(Normalize(order)), Before);
            multiset(list) == multiset(table) && |list| == |table|
  {
    BeforeIsTotal();
    assert UniqueKeys(table, OrderKey(Normalize(order)));
    ListingFacts(table, OrderKey(Normalize(order)), Before);
  }

  /** With times finer than a millisecond a session can be passed over: the cursor after the first page points below
      the second session, which ties with the first in the database. */
  lemma FinerTimesSkipASession()
    ensures var s, t := Session("b", 999_999, 1_000_000, 1), Session("a", 0, 1_000_000, 1);
      PageOf([s, t], Duration, 1, None) == Page([s], Some(CursorOf(Duration, s))) &&
      PageOf([s, t], Duration, 1, Some(CursorOf(Duration, s))) == Page([], None)
  {
    var s, t := Session("b", 999_999, 1_000_000, 1), Session("a", 0, 1_000_000, 1);
    var key := OrderKey(Duration);
    var table := [s, t];
    assert table[1..] == [t] && table[1..][1..] == [];
    assert key(s) == Key(1, "b") && key(t) == Key(1, "a");
    assert Before("a", "b") && !Before("b", "a");
    var all := Seek(key, Before, None);
    assert Where(table, all) == [s] + Where([t], all) && Where([t], all) == [t] + Where([], all);
    assert Where(table, all) == [s, t];
    var less := Desc(key, Before);
    assert less(s, t) && !less(t, s);
    assert Sort([t], less) == Insert(t, Sort([t][1..], less), less);
    assert Sort([t], less) == [t];
    assert Sort([s, t], less) == Insert(s, [t], less) == [s] + [t];
    var past := Seek(key, Before, Some(Key(0, "b")));
    assert !past(s) && !past(t);
    assert Where([t], past) == [] + Where([t][1..], past);
    assert Where(table, past) == [] + Where([t], past);
    assert SortValue(Duration, s) == 0;
  }
}
