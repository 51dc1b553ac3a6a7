/** Rotating refresh tokens with reuse detection. Each transaction is one atomic step over the
    token table; tokens stand for their hashes. RefreshRaces takes the transactions apart. */
module RefreshFamilies {
  import opened Basics

  type Token = nat
  type Family = nat

  const REFRESH_TOKEN_TTL := 90 * 24 * 3600

  datatype Row = Row(customer: string, family: Family, domain: string, expiresAt: int, consumed: bool, revoked: bool)

  type Table = map<Token, Row>

  /** checkRefreshInTx: accepted, refused because the domain requires SSO, or the check itself failed. */
  datatype Gate = Allowed | SsoRequired | CheckFailed

  /** Commands of one call that fail; `raced`: the consume finds the row no longer live. */
  datatype Faults = Faults(begin: bool, lookup: bool, revoke: bool, sign: bool, consume: bool, raced: bool,
                           create: bool, commit: bool)

  datatype Reply = Session(token: Token) | InvalidToken | SsoRefused | Internal

  function RevokeFamily(rows: Table, family: Family): Table {
    map t | t in rows :: if rows[t].family == family then rows[t].(revoked := true) else rows[t]
  }

  /** Rows a sign-out with this token revokes: the family of whatever row carries its hash. */
  function RevokeByHash(rows: Table, token: Token): Table {
    if token in rows then RevokeFamily(rows, rows[token].family) else rows
  }

  function Expire(rows: Table, now: int): Table {
    map t | t in rows && now < rows[t].expiresAt :: rows[t]
  }

  predicate Live(row: Row) { !row.consumed && !row.revoked }

  // ----- calls and what one of them does to the table

  datatype Call =
    | Issue(customer: string, domain: string, family: Family, minted: Token, now: int, f: Faults)
    | Refresh(token: Token, now: int, minted: Token, gate: Gate, f: Faults)
    | SignOut(token: Token, fails: bool)
    | Cleanup(now: int)

  /** What a committed call leaves in the history. */
  datatype Entry =
    | Issued(family: Family, token: Token, customer: string, domain: string)
    | Rotated(family: Family, spent: Token, token: Token, customer: string, domain: string)
    | Killed(family: Family)

  datatype Result = Result(rows: Table, reply: Option<Reply>, log: seq<Entry>)

  function Apply(rows: Table, call: Call): Result {
    match call
    case Issue(customer, domain, family, minted, now, f) =>
      if f.sign || f.create || f.commit || minted in rows then Result(rows, Some(Internal), [])
      else Result(rows[minted := Row(customer, family, domain, now + REFRESH_TOKEN_TTL, false, false)],
                  Some(Session(minted)), [Issued(family, minted, customer, domain)])
    case Refresh(token, now, minted, gate, f) => ApplyRefresh(rows, token, now, minted, gate, f)
    case SignOut(token, fails) =>
      if fails then Result(rows, Some(Internal), [])
      else Result(RevokeByHash(rows, token), None, if token in rows then [Killed(rows[token].family)] else [])
    case Cleanup(now) => Result(Expire(rows, now), None, [])
  }

  function ApplyRefresh(rows: Table, token: Token, now: int, minted: Token, gate: Gate, f: Faults): Result {
    if f.begin || f.lookup then Result(rows, Some(Internal), [])
    else if token !in rows then Result(rows, Some(InvalidToken), [])
    else
      var row := rows[token];
      var killed := Result(RevokeFamily(rows, row.family), Some(InvalidToken), [Killed(row.family)]);
      if row.consumed then
        if f.revoke || f.commit then Result(rows, Some(Internal), []) else killed
      else if row.revoked || row.expiresAt <= now then Result(rows, Some(InvalidToken), [])
      else if gate.CheckFailed? then Result(rows, Some(Internal), [])
      else if gate.SsoRequired? then
        if f.revoke || f.commit then Result(rows, Some(SsoRefused), []) else killed.(reply := Some(SsoRefused))
      else if f.sign || f.consume then Result(rows, Some(Internal), [])
      else if f.raced then Result(rows, Some(InvalidToken), [])
      else if f.create || f.commit || minted in rows then Result(rows, Some(Internal), [])
      else
        Result(rows[token := row.(consumed := true)][minted := Successor(row, now)],
               Some(Session(minted)), [Rotated(row.family, token, minted, row.customer, row.domain)])
  }

  function Successor(row: Row, now: int): Row {
    Row(row.customer, row.family, row.domain, now + REFRESH_TOKEN_TTL, false, false)
  }

  class AuthService {
    var rows: Table

    /** Works on a copy of the table, which only a successful commit publishes. */
    method RefreshSession(token: Token, now: int, minted: Token, gate: Gate, f: Faults) returns (reply: Reply)
      modifies this
      ensures var r := Apply(old(rows), Refresh(token, now, minted, gate, f));
              rows == r.rows && r.reply == Some(reply)
    {
      if f.begin {
        return Internal;
      }
      var tx := rows;
      if f.lookup {
        return Internal;
      }
      if token !in tx {
        return InvalidToken;
      }
      var row := tx[token];
      if row.consumed {
        if f.revoke {
          return Internal;
        }
        tx := RevokeFamily(tx, row.family);
        if f.commit {
          return Internal;
        }
        rows := tx;
        return InvalidToken;
      }
      if row.revoked || !(row.expiresAt > now) {
        return InvalidToken;
      }
      match gate {
        case CheckFailed =>
          return Internal;
        case SsoRequired =>
          if !f.revoke {
            tx := RevokeFamily(tx, row.family);
            if !f.commit {
              rows := tx;
            }
          }
          return SsoRefused;
        case Allowed =>
      }
      if f.sign || f.consume {
        return Internal;
      }
      if f.raced {
        return InvalidToken;
      }
      tx := tx[token := tx[token].(consumed := true)];
      var created;
      tx, created := CreateRefreshToken(tx, row.customer, row.family, row.domain, now, minted, f);
      if !created || f.commit {
        return Internal;
      }
      rows := tx;
      return Session(minted);
    }

    /** Inserts the hash of a new token; a taken hash violates the unique constraint. */
    static method CreateRefreshToken(tx: Table, customer: string, family: Family, domain: string,
                                     now: int, minted: Token, f: Faults)
      returns (after: Table, created: bool)
      ensures created == (!f.create && minted !in tx)
      ensures after ==
        if created then tx[minted := Row(customer, family, domain, now + REFRESH_TOKEN_TTL, false, false)] else tx
    {
      created := !f.create && minted !in tx;
      after :=
        if created then tx[minted := Row(customer, family, domain, now + REFRESH_TOKEN_TTL, false, false)] else tx;
    }

    method IssueSession(customer: string, domain: string, family: Family, minted: Token, now: int, f: Faults)
      returns (reply: Reply)
      modifies this
      ensures var r := Apply(old(rows), Issue(customer, domain, family, minted, now, f));
              rows == r.rows && r.reply == Some(reply)
    {
      if f.sign {
        return Internal;
      }
      var tx, created := CreateRefreshToken(rows, customer, family, domain, now, minted, f);
      if !created || f.commit {
        return Internal;
      }
      rows := tx;
      return Session(minted);
    }

    method RevokeSession(token: Token, fails: bool) returns (ok: bool)
      modifies this
      ensures ok == !fails && rows == Apply(old(rows), SignOut(token, fails)).rows
    {
      if fails {
        return false;
      }
      rows := RevokeByHash(rows, token);
      return true;
    }
  }

  // ----- whole runs

  /** The table, everything ever minted, and the history of committed calls. */
  datatype World = World(rows: Table, tokens: set<Token>, families: set<Family>, log: seq<Entry>)

  const EMPTY := World(map[], {}, {}, [])

  function Next(w: World, call: Call): World {
    var r := Apply(w.rows, call);
    World(r.rows,
          w.tokens + (if call.Issue? || call.Refresh? then {call.minted} else {}),
          w.families + (if call.Issue? then {call.family} else {}),
          w.log + r.log)
  }

  /** Random tokens and family ids never repeat. */
  predicate Mints(w: World, call: Call) {
    && (call.Issue? || call.Refresh? ==> call.minted !in w.tokens)
    && (call.Issue? ==> call.family !in w.families)
  }

  ghost predicate Reachable(w: World, calls: seq<Call>)
    decreases |calls|
  {
    if calls == [] then w == EMPTY
    else
      var front, last := calls[..|calls| - 1], calls[|calls| - 1];
      exists before :: Reachable(before, front) && Mints(before, last) && w == Next(before, last)
  }

  /** The most recent token minted for the family. */
  function Newest(log: seq<Entry>, family: Family): (e: Option<Entry>)
    ensures e.Some? ==> !e.value.Killed? && e.value.family == family && e.value in log
  {
    if log == [] then None
    else
      var last := log[|log| - 1];
      if !last.Killed? && last.family == family then Some(last) else Newest(log[..|log| - 1], family)
  }

  /** Entry e belongs to the owner of the row: same customer, same proven domain. */
  predicate SameOwner(e: Entry, customer: string, domain: string)
    requires !e.Killed?
  {
    e.customer == customer && e.domain == domain
  }

  // ----- the invariant

  ghost predicate RowValid(w: World, t: Token, row: Row) {
    var newest := Newest(w.log, row.family);
    && t in w.tokens && row.family in w.families
    && newest.Some? && SameOwner(newest.value, row.customer, row.domain)
    && (!row.consumed ==> newest.value.token == t)
    && (Killed(row.family) in w.log ==> row.revoked)
  }

  ghost predicate TableValid(w: World) {
    forall t :: t in w.rows ==> RowValid(w, t, w.rows[t])
  }

  /** A token presented by a success is spent for good: its row, while it lasts, is consumed. */
  predicate EntryValid(w: World, e: Entry) {
    && e.family in w.families
    && (!e.Killed? ==> e.token in w.tokens)
    && (e.Rotated? ==> e.spent in w.tokens && (e.spent in w.rows ==> w.rows[e.spent].consumed))
  }

  ghost predicate LogValid(w: World) {
    forall e :: e in w.log ==> EntryValid(w, e)
  }

  /** Each success presents the token the previous success of its family minted, for the same
      owner, and no family succeeds after it was killed. */
  ghost predicate Linear(log: seq<Entry>) {
    forall k :: 0 <= k < |log| && log[k].Rotated? ==>
      var e := log[k];
      var newest := Newest(log[..k], e.family);
      && newest.Some? && newest.value.token == e.spent && SameOwner(newest.value, e.customer, e.domain)
      && Killed(e.family) !in log[..k]
  }

  ghost predicate RedeemedOnce(log: seq<Entry>) {
    forall j, k :: 0 <= j < k < |log| && log[j].Rotated? && log[k].Rotated? ==> log[j].spent != log[k].spent
  }

  ghost predicate Valid(w: World) {
    TableValid(w) && LogValid(w) && Linear(w.log) && RedeemedOnce(w.log)
  }

  lemma NewestSnoc(log: seq<Entry>, e: Entry, family: Family)
    ensures Newest(log + [e], family) == if !e.Killed? && e.family == family then Some(e) else Newest(log, family)
  {
    assert (log + [e])[..|log|] == log;
  }

  lemma LinearSnoc(log: seq<Entry>, e: Entry)
    requires Linear(log)
    requires e.Rotated? ==>
               var newest := Newest(log, e.family);
               && newest.Some? && newest.value.token == e.spent && SameOwner(newest.value, e.customer, e.domain)
               && Killed(e.family) !in log
    ensures Linear(log + [e])
  {
    var longer := log + [e];
    forall k | 0 <= k < |longer| && longer[k].Rotated?
      ensures var f := longer[k];
              var newest := Newest(longer[..k], f.family);
              && newest.Some? && newest.value.token == f.spent && SameOwner(newest.value, f.customer, f.domain)
              && Killed(f.family) !in longer[..k]
    {
      assert longer[..k] == log[..k];
      if k == |log| { assert log[..k] == log; }
    }
  }

  /** Rows only ever gain fresh tokens and never get unconsumed. */
  lemma EntriesStay(w: World, call: Call)
    requires LogValid(w) && Mints(w, call)
    ensures forall e :: e in w.log ==> EntryValid(Next(w, call), e)
  {
  }

  lemma RedeemedOnceSnoc(w: World, e: Entry)
    requires RedeemedOnce(w.log) && LogValid(w)
    requires e.Rotated? ==> e.spent in w.rows && !w.rows[e.spent].consumed
    ensures RedeemedOnce(w.log + [e])
  {
    forall j | 0 <= j < |w.log| && w.log[j].Rotated? && e.Rotated? ensures w.log[j].spent != e.spent {
      assert EntryValid(w, w.log[j]);
    }
  }

  lemma KillKeeps(w: World, call: Call, family: Family)
    requires Valid(w) && Mints(w, call) && family in w.families
    requires Apply(w.rows, call).rows == RevokeFamily(w.rows, family) && Apply(w.rows, call).log == [Killed(family)]
    ensures Valid(Next(w, call))
  {
    var after := Next(w, call);
    EntriesStay(w, call);
    hide Apply, Newest;
    LinearSnoc(w.log, Killed(family));
    RedeemedOnceSnoc(w, Killed(family));
    forall t | t in after.rows ensures RowValid(after, t, after.rows[t]) {
      assert RowValid(w, t, w.rows[t]);
      NewestSnoc(w.log, Killed(family), after.rows[t].family);
    }
  }

  lemma IssueKeeps(w: World, call: Call)
    requires Valid(w) && Mints(w, call) && call.Issue? && Apply(w.rows, call).log != []
    ensures Valid(Next(w, call))
  {
    var after := Next(w, call);
    var e := Issued(call.family, call.minted, call.customer, call.domain);
    assert after.log == w.log + [e];
    EntriesStay(w, call);
    hide Newest;
    LinearSnoc(w.log, e);
    RedeemedOnceSnoc(w, e);
    forall t | t in after.rows ensures RowValid(after, t, after.rows[t]) {
      assert t in w.rows ==> RowValid(w, t, w.rows[t]);
      assert Killed(call.family) in w.log ==> EntryValid(w, Killed(call.family));
      NewestSnoc(w.log, e, after.rows[t].family);
    }
  }

  /** What a successful refresh does. */
  lemma RotationShape(w: World, call: Call)
    requires call.Refresh? && call.token in w.rows && Apply(w.rows, call).reply == Some(Session(call.minted))
    ensures var row := w.rows[call.token];
            && Live(row) && call.minted !in w.rows
            && Next(w, call).tokens == w.tokens + {call.minted} && Next(w, call).families == w.families
            && Next(w, call).rows ==
              w.rows[call.token := row.(consumed := true)][call.minted := Successor(row, call.now)]
            && Next(w, call).log == w.log + [Rotated(row.family, call.token, call.minted, row.customer, row.domain)]
  {
  }

  lemma RotatedTable(w: World, token: Token, minted: Token, now: int, after: World)
    requires TableValid(w) && token in w.rows && Live(w.rows[token]) && minted !in w.rows
    requires var row := w.rows[token];
             && after.rows == w.rows[token := row.(consumed := true)][minted := Successor(row, now)]
             && after.log == w.log + [Rotated(row.family, token, minted, row.customer, row.domain)]
    requires after.tokens == w.tokens + {minted} && after.families == w.families
    ensures TableValid(after)
  {
    hide Newest;
    var row := w.rows[token];
    assert RowValid(w, token, row);
    forall t | t in after.rows ensures RowValid(after, t, after.rows[t]) {
      assert t in w.rows ==> RowValid(w, t, w.rows[t]);
      NewestSnoc(w.log, Rotated(row.family, token, minted, row.customer, row.domain), after.rows[t].family);
    }
  }

  lemma RotationKeeps(w: World, call: Call)
    requires Valid(w) && Mints(w, call) && call.Refresh? && call.token in w.rows
    requires Apply(w.rows, call).reply == Some(Session(call.minted))
    ensures Valid(Next(w, call))
  {
    hide Apply, Newest, Next;
    var row := w.rows[call.token];
    var e := Rotated(row.family, call.token, call.minted, row.customer, row.domain);
    RotationShape(w, call);
    EntriesStay(w, call);
    RotatedTable(w, call.token, call.minted, call.now, Next(w, call));
    assert RowValid(w, call.token, row);
    assert EntryValid(Next(w, call), e) by { RotationRecorded(w, Next(w, call), call.token, e); }
    hide RowValid, EntryValid, TableValid;
    LinearSnoc(w.log, e);
    RedeemedOnceSnoc(w, e);
  }

  lemma RotationRecorded(w: World, after: World, token: Token, e: Entry)
    requires TableValid(w) && token in w.rows && e.Rotated? && e.spent == token && e.family == w.rows[token].family
    requires after.tokens == w.tokens + {e.token} && after.families == w.families
    requires token in after.rows ==> after.rows[token].consumed
    ensures EntryValid(after, e)
  {
    assert RowValid(w, token, w.rows[token]);
  }

  lemma QuietKeeps(w: World, call: Call)
    requires Valid(w) && Mints(w, call) && Apply(w.rows, call).log == []
    ensures Valid(Next(w, call))
  {
    EntriesStay(w, call);
    var after := Next(w, call);
    assert after.log == w.log;
    forall t | t in after.rows ensures RowValid(after, t, after.rows[t]) {
      assert t in w.rows && after.rows[t] == w.rows[t];
      assert RowValid(w, t, w.rows[t]);
    }
  }

  /** Every committed call, and every failed one, keeps the invariant. */
  lemma StepKeepsValid(w: World, call: Call)
    requires Valid(w) && Mints(w, call)
    ensures Valid(Next(w, call))
  {
    hide Valid, Next;
    var r := Apply(w.rows, call);
    if r.log == [] {
      QuietKeeps(w, call);
    } else if call.Issue? {
      IssueKeeps(w, call);
    } else if r.log[0].Killed? {
      KnownFamily(w, call.token);
      KillKeeps(w, call, r.log[0].family);
    } else {
      RotationKeeps(w, call);
    }
  }

  lemma KnownFamily(w: World, t: Token)
    requires Valid(w) && t in w.rows
    ensures w.rows[t].family in w.families
  {
    assert RowValid(w, t, w.rows[t]);
  }

  lemma {:induction false} ReachableIsValid(w: World, calls: seq<Call>)
    requires Reachable(w, calls)
    ensures Valid(w)
    decreases |calls|
  {
    if calls != [] {
      var front, last := calls[..|calls| - 1], calls[|calls| - 1];
      var before :| Reachable(before, front) && Mints(before, last) && w == Next(before, last);
      ReachableIsValid(before, front);
      StepKeepsValid(before, last);
    }
  }

  // ----- what every run guarantees

  /** A family never has two live tokens. */
  lemma AtMostOneLive(w: World, calls: seq<Call>, a: Token, b: Token)
    requires Reachable(w, calls) && a in w.rows && b in w.rows && w.rows[a].family == w.rows[b].family
    requires Live(w.rows[a]) && Live(w.rows[b])
    ensures a == b
  {
    ReachableIsValid(w, calls);
  }

  /** Successes form one chain per family, each token is redeemed at most once, and a family that
      was killed never succeeds again. */
  lemma ChainsAreLinear(w: World, calls: seq<Call>)
    requires Reachable(w, calls)
    ensures Linear(w.log) && RedeemedOnce(w.log)
    ensures forall j, k :: 0 <= j < k < |w.log| && w.log[j].Killed? && w.log[k].Rotated? ==>
              w.log[j].family != w.log[k].family
  {
    ReachableIsValid(w, calls);
    forall j, k | 0 <= j < k < |w.log| && w.log[j].Killed? && w.log[k].Rotated?
      ensures w.log[j].family != w.log[k].family
    {
      assert w.log[j] == w.log[..k][j];
    }
  }

  ghost predicate Continues(w: World, later: World, calls: seq<Call>)
    decreases |calls|
  {
    if calls == [] then later == w
    else Mints(w, calls[0]) && Continues(Next(w, calls[0]), later, calls[1..])
  }

  lemma {:induction false} KilledStaysKilled(w: World, later: World, calls: seq<Call>, family: Family)
    requires Valid(w) && Killed(family) in w.log && Continues(w, later, calls)
    ensures Valid(later) && Killed(family) in later.log
    decreases |calls|
  {
    if calls != [] {
      StepKeepsValid(w, calls[0]);
      KilledStaysKilled(Next(w, calls[0]), later, calls[1..], family);
    }
  }

  /** Once a revocation commits, whatever caused it (a replay, a sign-out, a domain that requires SSO), the family has
      ended: after any further calls by anyone, no refresh with a token of it yields a session. */
  lemma KillEndsTheFamily(w: World, calls: seq<Call>, kill: Call, family: Family, more: seq<Call>, later: World,
                          attempt: Call)
    requires Reachable(w, calls) && Mints(w, kill) && Apply(w.rows, kill).log == [Killed(family)]
    requires Continues(Next(w, kill), later, more)
    requires attempt.Refresh? && attempt.token in later.rows && later.rows[attempt.token].family == family
    ensures Apply(later.rows, attempt).reply in {Some(InvalidToken), Some(Internal)}
  {
    ReachableIsValid(w, calls);
    StepKeepsValid(w, kill);
    assert Next(w, kill).log[|w.log|] == Killed(family);
    KilledStaysKilled(Next(w, kill), later, more, family);
  }

  /** Presenting a consumed token revokes its family unless a command of the transaction fails, and then no refresh in
      that family ever yields a session again. */
  lemma ReplayEndsTheFamily(w: World, calls: seq<Call>, replay: Call, more: seq<Call>, later: World, attempt: Call)
    requires Reachable(w, calls) && Mints(w, replay)
    requires replay.Refresh? && replay.token in w.rows && w.rows[replay.token].consumed
    requires Continues(Next(w, replay), later, more)
    requires attempt.Refresh? && attempt.token in later.rows
    requires later.rows[attempt.token].family == w.rows[replay.token].family
    ensures !replay.f.begin && !replay.f.lookup && !replay.f.revoke && !replay.f.commit ==>
      Apply(later.rows, attempt).reply in {Some(InvalidToken), Some(Internal)}
    ensures Apply(w.rows, replay).reply in {Some(InvalidToken), Some(Internal)}
  {
    if !replay.f.begin && !replay.f.lookup && !replay.f.revoke && !replay.f.commit {
      KillEndsTheFamily(w, calls, replay, w.rows[replay.token].family, more, later, attempt);
    }
  }

  // ----- every reply and every changed row, in terms of the row and the call alone

  /** The token can be redeemed now. */
  predicate Redeemable(rows: Table, token: Token, now: int) {
    token in rows && !rows[token].consumed && !rows[token].revoked && now < rows[token].expiresAt
  }

  /** A refresh yields a session exactly for a redeemable token of an account that may sign in, when no command on the
      way fails or loses its race; and the token it yields is the minted one. */
  lemma SessionExactly(rows: Table, token: Token, now: int, minted: Token, gate: Gate, f: Faults)
    ensures var reply := Apply(rows, Refresh(token, now, minted, gate, f)).reply;
      && reply.Some?
      && (reply.value.Session? ==> reply.value.token == minted)
      && (reply.value.Session? <==>
            token in rows && !rows[token].consumed && !rows[token].revoked && now < rows[token].expiresAt &&
            gate == Allowed && minted !in rows &&
            !f.begin && !f.lookup && !f.sign && !f.consume && !f.raced && !f.create && !f.commit)
  {
  }

  /** When it is refused, and how; all else is an internal error. */
  lemma RefusalsExactly(rows: Table, token: Token, now: int, minted: Token, gate: Gate, f: Faults)
    ensures var reply := Apply(rows, Refresh(token, now, minted, gate, f)).reply;
      && (reply == Some(SsoRefused) <==>
            !f.begin && !f.lookup && Redeemable(rows, token, now) && gate == SsoRequired)
      && (reply == Some(InvalidToken) <==>
            !f.begin && !f.lookup &&
            (token !in rows
             || (rows[token].consumed && !f.revoke && !f.commit)
             || (!rows[token].consumed && (rows[token].revoked || rows[token].expiresAt <= now))
             || (Redeemable(rows, token, now) && gate == Allowed && !f.sign && !f.consume && f.raced)))
  {
  }

  /** The transaction revokes the token's family: it was redeemed before, or its domain requires SSO. */
  predicate Revokes(rows: Table, token: Token, now: int, gate: Gate, f: Faults) {
    && !f.begin && !f.lookup && !f.revoke && !f.commit && token in rows
    && (rows[token].consumed || (Redeemable(rows, token, now) && gate == SsoRequired))
  }

  /** What a refresh does to the table, row by row: a success spends the token and adds its successor, which lives for
      ninety days and has the same owner; a revocation marks the family and nothing else; anything else changes
      nothing. */
  lemma RefreshedRows(rows: Table, token: Token, now: int, minted: Token, gate: Gate, f: Faults, t: Token)
    ensures var r := Apply(rows, Refresh(token, now, minted, gate, f));
      var success := r.reply == Some(Session(minted));
      && (t in r.rows <==> t in rows || (success && t == minted))
      && (t in rows ==>
            r.rows[t] == rows[t].(consumed := rows[t].consumed || (success && t == token),
                                  revoked := rows[t].revoked ||
                                             (Revokes(rows, token, now, gate, f) &&
                                               rows[t].family == rows[token].family)))
      && (success && t == minted ==>
            token in rows &&
            r.rows[t] ==
              Row(rows[token].customer, rows[token].family, rows[token].domain, now + 7_776_000, false, false))
  {
  }

  /** A sign-in adds one token of its own family, which lives for ninety days, or nothing. */
  lemma IssuedRows(rows: Table, customer: string, domain: string, family: Family, minted: Token, now: int, f: Faults)
    ensures var r := Apply(rows, Issue(customer, domain, family, minted, now, f));
      if f.sign || f.create || f.commit || minted in rows then r.rows == rows && r.reply == Some(Internal)
      else r.reply == Some(Session(minted)) &&
           r.rows == rows[minted := Row(customer, family, domain, now + 7_776_000, false, false)]
  {
  }

  /** A sign-out marks the rows of the token's family and no other; a clean-up drops the expired rows and no other. */
  lemma OtherRows(rows: Table, token: Token, fails: bool, now: int, t: Token)
    ensures var out := Apply(rows, SignOut(token, fails)).rows;
      && (t in out <==> t in rows)
      && (t in rows ==>
            out[t] == rows[t].(revoked := rows[t].revoked ||
                                          (!fails && token in rows && rows[t].family == rows[token].family)))
    ensures var left := Apply(rows, Cleanup(now)).rows;
      && (t in left <==> t in rows && now < rows[t].expiresAt)
      && (t in left ==> left[t] == rows[t])
  {
  }
}
