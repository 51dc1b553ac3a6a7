/** One rotation family, its transactions taken apart into statements that interleave under READ COMMITTED with row
    locks: what a revocation that runs beside a refresh does, and does not, end. */
module RefreshRaces {
  import opened Basics

  type Token = nat

  datatype Row = Row(consumed: bool, revoked: bool)

  predicate Live(row: Row) { !row.consumed && !row.revoked }

  datatype Reply = Session(token: Token) | InvalidToken | Ended | Aborted

  /** Where a transaction stands. A refresh locks the row of its token, consumes it, inserts the successor and commits;
      nobody else sees either write before that. A revocation is one UPDATE: it works through the unrevoked rows that
      were committed when it started (`seen`), locking each; `since` is how many rotations had been committed then. */
  datatype Tx =
    | Idle
    | Redeeming(token: Token)
    | Consumed(token: Token)
    | Rotated(token: Token, minted: Token)
    | Presented(token: Token)
    | Revoking(own: set<Token>, seen: set<Token>, locked: set<Token>, since: nat)
    | Finished(reply: Reply)

  datatype Rotation = Rotation(spent: Token, minted: Token)

  /** The committed rows, the transactions, everything ever minted, and the committed rotations. */
  datatype World = World(rows: map<Token, Row>, txs: seq<Tx>, minted: set<Token>, log: seq<Rotation>)

  datatype Step =
    | Lookup(i: nat, token: Token)
    | Consume(i: nat)
    | Insert(i: nat, token: Token)
    | Revoke(i: nat)
    | SignOut(i: nat)
    | Reach(i: nat, token: Token)
    | Commit(i: nat)
    | Abort(i: nat)

  function Held(tx: Tx): set<Token> {
    match tx
    case Redeeming(t) => {t}
    case Consumed(t) => {t}
    case Rotated(t, _) => {t}
    case Presented(t) => {t}
    case Revoking(own, _, locked, _) => own + locked
    case _ => {}
  }

  /** No other transaction holds the row: a statement that wants it need not wait. */
  predicate Free(txs: seq<Tx>, i: nat, t: Token) {
    forall j :: 0 <= j < |txs| && j != i ==> t !in Held(txs[j])
  }

  function Init(n: nat, first: Token): World {
    World(map[first := Row(false, false)], seq(n, _ => Idle), {first}, [])
  }

  function With(w: World, i: nat, tx: Tx): World
    requires i < |w.txs|
  {
    w.(txs := w.txs[i := tx])
  }

  function Unrevoked(rows: map<Token, Row>): set<Token> { set t | t in rows && !rows[t].revoked }

  function RevokeRows(rows: map<Token, Row>, locked: set<Token>): map<Token, Row> {
    map t | t in rows :: if t in locked then rows[t].(revoked := true) else rows[t]
  }

  /** One statement of one transaction; a statement that must wait, or is not the next one, does nothing. */
  function Next(w: World, s: Step): (after: World)
    ensures |after.txs| == |w.txs|
  {
    if s.i >= |w.txs| then w
    else
      var tx := w.txs[s.i];
      match s
      case Lookup(i, t) =>
        if tx != Idle || !Free(w.txs, i, t) then w
        else if t !in w.rows || (w.rows[t].revoked && !w.rows[t].consumed) then With(w, i, Finished(InvalidToken))
        else if w.rows[t].consumed then With(w, i, Presented(t))
        else With(w, i, Redeeming(t))
      case Consume(i) =>
        if !tx.Redeeming? then w
        else if tx.token in w.rows && Live(w.rows[tx.token]) then With(w, i, Consumed(tx.token))
        else With(w, i, Finished(InvalidToken))
      case Insert(i, m) =>
        if !tx.Consumed? || m in w.minted then w
        else With(w, i, Rotated(tx.token, m)).(minted := w.minted + {m})
      case Revoke(i) =>
        if !tx.Presented? && !tx.Redeeming? then w
        else With(w, i, Revoking({tx.token}, Unrevoked(w.rows), {}, |w.log|))
      case SignOut(i) => if tx != Idle then w else With(w, i, Revoking({}, Unrevoked(w.rows), {}, |w.log|))
      case Reach(i, t) =>
        if !tx.Revoking? || t !in tx.seen || !Free(w.txs, i, t) || t !in w.rows then w
        else if w.rows[t].revoked then With(w, i, tx.(seen := tx.seen - {t}))
        else With(w, i, tx.(seen := tx.seen - {t}, locked := tx.locked + {t}))
      case Commit(i) =>
        if tx.Rotated? && tx.token in w.rows then
          With(w, i, Finished(Session(tx.minted)))
            .(rows := w.rows[tx.token := w.rows[tx.token].(consumed := true)][tx.minted := Row(false, false)],
              log := w.log + [Rotation(tx.token, tx.minted)])
        else if tx.Revoking? && tx.seen == {} then
          With(w, i, Finished(Ended)).(rows := RevokeRows(w.rows, tx.locked))
        else w
      case Abort(i) => if tx == Idle || tx.Finished? then w else With(w, i, Finished(Aborted))
  }

  function Run(w: World, steps: seq<Step>): (after: World)
    ensures |after.txs| == |w.txs|
    decreases |steps|
  {
    if steps == [] then w else Run(Next(w, steps[0]), steps[1..])
  }

  // ----- the invariant

  /** The token minted last. */
  function Tip(first: Token, log: seq<Rotation>): Token { if log == [] then first else log[|log| - 1].minted }

  /** Each rotation spends the token the previous one minted. */
  ghost predicate Linear(first: Token, log: seq<Rotation>) {
    forall k :: 0 <= k < |log| ==> log[k].spent == Tip(first, log[..k])
  }

  /** Only the newest token can be live. */
  ghost predicate OnlyTipLives(w: World, first: Token) {
    forall t :: t in w.rows && Live(w.rows[t]) ==> t == Tip(first, w.log)
  }

  ghost predicate Locking(txs: seq<Tx>) {
    forall i, j :: 0 <= i < |txs| && 0 <= j < |txs| && i != j ==> Held(txs[i]) !! Held(txs[j])
  }

  ghost predicate FreshSuccessors(txs: seq<Tx>) {
    forall i, j :: 0 <= i < |txs| && 0 <= j < |txs| && i != j && txs[i].Rotated? && txs[j].Rotated? ==>
      txs[i].minted != txs[j].minted
  }

  /** A refresh in progress holds a live row, so its consume cannot lose a race. A revocation has the live row among
      the rows it works through exactly when no rotation was committed since it started. */
  ghost predicate TxGood(w: World, tx: Tx) {
    match tx
    case Redeeming(t) => t in w.rows && Live(w.rows[t])
    case Consumed(t) => t in w.rows && Live(w.rows[t])
    case Rotated(t, m) => t in w.rows && Live(w.rows[t]) && m in w.minted && m !in w.rows
    case Presented(t) => t in w.rows
    case Revoking(own, seen, locked, since) =>
      && seen <= w.rows.Keys && locked <= w.rows.Keys && since <= |w.log|
      && (forall t :: t in locked ==> !w.rows[t].revoked)
      && (forall t :: t in w.rows && Live(w.rows[t]) ==> (t in seen + locked <==> since == |w.log|))
    case _ => true
  }

  ghost predicate Good(w: World, first: Token) {
    && w.rows.Keys <= w.minted && OnlyTipLives(w, first) && Linear(first, w.log)
    && Locking(w.txs) && FreshSuccessors(w.txs)
    && forall i :: 0 <= i < |w.txs| ==> TxGood(w, w.txs[i])
  }

  lemma InitIsGood(n: nat, first: Token)
    ensures Good(Init(n, first), first)
  {
  }

  /** A step that changes its own transaction only. */
  lemma OwnStepIsGood(w: World, after: World, first: Token, i: nat)
    requires Good(w, first) && i < |w.txs| && |after.txs| == |w.txs|
    requires after == w.(txs := after.txs, minted := after.minted)
    requires forall j :: 0 <= j < |w.txs| && j != i ==> after.txs[j] == w.txs[j]
    requires w.minted <= after.minted && TxGood(after, after.txs[i])
    requires forall t :: t in Held(after.txs[i]) ==> t in Held(w.txs[i]) || Free(w.txs, i, t)
    requires after.txs[i].Rotated? ==> after.txs[i].minted !in w.minted || w.txs[i] == after.txs[i]
    ensures Good(after, first)
  {
    forall j, k | 0 <= j < |w.txs| && 0 <= k < |w.txs| && j != k ensures Held(after.txs[j]) !! Held(after.txs[k]) {
      assert Held(w.txs[j]) !! Held(w.txs[k]);
    }
    forall j | 0 <= j < |w.txs| ensures TxGood(after, after.txs[j]) {
      assert TxGood(w, w.txs[j]);
    }
  }

  /** Every statement but a commit. */
  lemma StatementIsGood(w: World, first: Token, s: Step)
    requires Good(w, first) && !s.Commit?
    ensures Good(Next(w, s), first)
  {
    if s.i < |w.txs| {
      assert TxGood(w, w.txs[s.i]);
      var after := Next(w, s);
      StatementTx(w, s);
      if after != w { OwnStepIsGood(w, after, first, s.i); }
    }
  }

  lemma StatementTx(w: World, s: Step)
    requires !s.Commit? && s.i < |w.txs| && TxGood(w, w.txs[s.i]) && w.rows.Keys <= w.minted
    ensures var after := Next(w, s);
      && after == w.(txs := after.txs, minted := after.minted) && w.minted <= after.minted
      && (forall j :: 0 <= j < |w.txs| && j != s.i ==> after.txs[j] == w.txs[j])
      && TxGood(after, after.txs[s.i])
      && (forall t :: t in Held(after.txs[s.i]) ==> t in Held(w.txs[s.i]) || Free(w.txs, s.i, t))
      && (after.txs[s.i].Rotated? ==> after.txs[s.i].minted !in w.minted || w.txs[s.i] == after.txs[s.i])
  {
  }

  predicate Commits(w: World, i: nat) {
    i < |w.txs| && ((w.txs[i].Rotated? && w.txs[i].token in w.rows) || (w.txs[i].Revoking? && w.txs[i].seen == {}))
  }

  /** A committed rotation: the spent row dies, its successor is the one live row. */
  lemma RotationIsGood(w: World, first: Token, i: nat)
    requires Good(w, first) && Commits(w, i) && w.txs[i].Rotated?
    ensures Good(Next(w, Commit(i)), first)
  {
    var after, tx := Next(w, Commit(i)), w.txs[i];
    assert TxGood(w, tx);
    var e := Rotation(tx.token, tx.minted);
    assert tx.token == Tip(first, w.log);
    LinearSnoc(first, w.log, e);
    forall j | 0 <= j < |w.txs| ensures TxGood(after, after.txs[j]) {
      assert TxGood(w, w.txs[j]);
      if j != i { RotationBeside(w, after, first, i, j); }
    }
    forall j, k | 0 <= j < |w.txs| && 0 <= k < |w.txs| && j != k ensures Held(after.txs[j]) !! Held(after.txs[k]) {
      assert Held(w.txs[j]) !! Held(w.txs[k]);
    }
  }

  lemma LinearSnoc(first: Token, log: seq<Rotation>, e: Rotation)
    requires Linear(first, log) && e.spent == Tip(first, log)
    ensures Linear(first, log + [e])
  {
    var longer := log + [e];
    forall k | 0 <= k < |longer| ensures longer[k].spent == Tip(first, longer[..k]) {
      assert longer[..k] == log[..k];
      if k == |log| { assert log[..k] == log; }
    }
  }

  /** Another transaction while a rotation commits: it does not hold the spent row, which is the only live one. */
  lemma RotationBeside(w: World, after: World, first: Token, i: nat, j: nat)
    requires Good(w, first) && Commits(w, i) && w.txs[i].Rotated? && after == Next(w, Commit(i))
    requires j < |w.txs| && j != i
    ensures TxGood(after, w.txs[j])
  {
    var spent := w.txs[i].token;
    assert TxGood(w, w.txs[i]) && TxGood(w, w.txs[j]);
    assert Held(w.txs[i]) !! Held(w.txs[j]);
    assert spent in Held(w.txs[i]) && spent !in Held(w.txs[j]);
  }

  /** A committed revocation. */
  lemma RevocationIsGood(w: World, first: Token, i: nat)
    requires Good(w, first) && Commits(w, i) && w.txs[i].Revoking?
    ensures Good(Next(w, Commit(i)), first)
  {
    var after, tx := Next(w, Commit(i)), w.txs[i];
    assert TxGood(w, tx);
    forall j | 0 <= j < |w.txs| ensures TxGood(after, after.txs[j]) {
      assert TxGood(w, w.txs[j]);
      if j != i { assert Held(tx) !! Held(w.txs[j]); }
    }
    forall j, k | 0 <= j < |w.txs| && 0 <= k < |w.txs| && j != k ensures Held(after.txs[j]) !! Held(after.txs[k]) {
      assert Held(w.txs[j]) !! Held(w.txs[k]);
    }
  }

  lemma NextIsGood(w: World, first: Token, s: Step)
    requires Good(w, first)
    ensures Good(Next(w, s), first)
  {
    if !s.Commit? {
      StatementIsGood(w, first, s);
    } else if Commits(w, s.i) {
      if w.txs[s.i].Rotated? { RotationIsGood(w, first, s.i); } else { RevocationIsGood(w, first, s.i); }
    }
  }

  lemma {:induction false} RunIsGood(w: World, first: Token, steps: seq<Step>)
    requires Good(w, first)
    ensures Good(Run(w, steps), first)
    decreases |steps|
  {
    hide Good, Next;
    if steps != [] {
      NextIsGood(w, first, steps[0]);
      RunIsGood(Next(w, steps[0]), first, steps[1..]);
    }
  }

  // ----- what every interleaving guarantees

  /** Under every interleaving a family has at most one live committed token, its rotations form one chain from the
      first token, and a refresh that reaches its consume still holds a live row: the lost race cannot happen. */
  lemma InterleavingsAreLinear(n: nat, first: Token, steps: seq<Step>)
    ensures var w := Run(Init(n, first), steps);
      && Linear(first, w.log)
      && (forall a, b :: a in w.rows && b in w.rows && Live(w.rows[a]) && Live(w.rows[b]) ==> a == b)
      && (forall i :: 0 <= i < |w.txs| && w.txs[i].Redeeming? ==> Next(w, Consume(i)).txs[i].Consumed?)
  {
    InitIsGood(n, first);
    RunIsGood(Init(n, first), first, steps);
    var w := Run(Init(n, first), steps);
    forall i | 0 <= i < |w.txs| && w.txs[i].Redeeming? ensures Next(w, Consume(i)).txs[i].Consumed? {
      assert TxGood(w, w.txs[i]);
    }
  }

  ghost predicate FamilyEnded(w: World) { forall t :: t in w.rows ==> !Live(w.rows[t]) }

  /** A revocation that commits ends the family if and only if no rotation was committed since its UPDATE started (or
      another revocation ended the family meanwhile): a successor committed in between is not among its rows. */
  lemma RevocationEndsExactly(n: nat, first: Token, steps: seq<Step>, i: nat)
    requires var w := Run(Init(n, first), steps); Commits(w, i) && w.txs[i].Revoking?
    ensures var w := Run(Init(n, first), steps);
      FamilyEnded(Next(w, Commit(i))) <==> |w.log| == w.txs[i].since || FamilyEnded(w)
  {
    InitIsGood(n, first);
    RunIsGood(Init(n, first), first, steps);
    var w := Run(Init(n, first), steps);
    CommitEnds(w, first, i);
  }

  lemma CommitEnds(w: World, first: Token, i: nat)
    requires Good(w, first) && Commits(w, i) && w.txs[i].Revoking?
    ensures FamilyEnded(Next(w, Commit(i))) <==> |w.log| == w.txs[i].since || FamilyEnded(w)
  {
    var after, tx := Next(w, Commit(i)), w.txs[i];
    assert TxGood(w, tx);
    if |w.log| != tx.since && !FamilyEnded(w) {
      var t :| t in w.rows && Live(w.rows[t]);
      assert t in after.rows && after.rows[t] == w.rows[t];
    }
  }

  /** An ended family stays ended, and none of its tokens is ever redeemed again. */
  lemma {:induction false} EndedForGood(w: World, first: Token, steps: seq<Step>)
    requires Good(w, first) && FamilyEnded(w)
    ensures FamilyEnded(Run(w, steps)) && Run(w, steps).log == w.log
    decreases |steps|
  {
    hide Good, Next;
    if steps != [] {
      EndedStep(w, first, steps[0]);
      NextIsGood(w, first, steps[0]);
      EndedForGood(Next(w, steps[0]), first, steps[1..]);
    }
  }

  lemma EndedStep(w: World, first: Token, s: Step)
    requires Good(w, first) && FamilyEnded(w)
    ensures FamilyEnded(Next(w, s)) && Next(w, s).log == w.log
  {
    if s.i < |w.txs| { assert TxGood(w, w.txs[s.i]); }
  }

  // ----- a replay beside a refresh

  lemma {:induction false} RunAppend(w: World, a: seq<Step>, b: seq<Step>)
    ensures Run(w, a + b) == Run(Run(w, a), b)
    decreases |a|
  {
    hide Next;
    if a == [] {
      assert a + b == b;
    } else {
      assert (a + b)[1..] == a[1..] + b;
      RunAppend(Next(w, a[0]), a[1..], b);
    }
  }

  lemma RunOne(w: World, s: Step)
    ensures Run(w, [s]) == Next(w, s)
  {
    assert [s][1..] == [];
  }

  const NEW := Row(false, false)
  const SPENT := Row(true, false)

  lemma {:induction false} RunThree(w: World, a: Step, b: Step, c: Step)
    ensures Run(w, [a, b, c]) == Next(Next(Next(w, a), b), c)
  {
    hide Next;
    assert [a, b, c][1..] == [b, c] && [b, c][1..] == [c];
    RunOne(Next(Next(w, a), b), c);
  }

  function FirstSteps(): seq<Step> { [Lookup(0, 0), Consume(0), Insert(0, 1)] + [Commit(0)] }
  function ReplaySteps(): seq<Step> { [Lookup(1, 1), Lookup(2, 0), Revoke(2)] }
  function OvertakeSteps(): seq<Step> { [Consume(1), Insert(1, 2), Commit(1)] }
  function RevokeSteps(): seq<Step> { [Reach(2, 0), Reach(2, 1), Commit(2)] }
  function LaterSteps(): seq<Step> { [Lookup(3, 2), Consume(3), Insert(3, 3)] + [Commit(3)] }

  /** Token 0 is redeemed for token 1. */
  function First(): World {
    World(map[0 := SPENT, 1 := NEW], [Finished(Session(1)), Idle, Idle, Idle], {0, 1}, [Rotation(0, 1)])
  }

  lemma FirstStatements()
    ensures Next(Next(Next(Init(4, 0), Lookup(0, 0)), Consume(0)), Insert(0, 1)) ==
      World(map[0 := NEW], [Rotated(0, 1), Idle, Idle, Idle], {0, 1}, [])
  {
    var held := Next(Init(4, 0), Lookup(0, 0));
    assert held.txs == [Redeeming(0), Idle, Idle, Idle];
    var consumed := Next(held, Consume(0));
    assert consumed.txs == [Consumed(0), Idle, Idle, Idle];
  }

  lemma FirstRefresh()
    ensures Run(Init(4, 0), FirstSteps()) == First()
  {
    var rotated := World(map[0 := NEW], [Rotated(0, 1), Idle, Idle, Idle], {0, 1}, []);
    FirstStatements();
    assert Next(rotated, Commit(0)) == First();
    hide Next, Init;
    RunThree(Init(4, 0), Lookup(0, 0), Consume(0), Insert(0, 1));
    RunOne(rotated, Commit(0));
    RunAppend(Init(4, 0), [Lookup(0, 0), Consume(0), Insert(0, 1)], [Commit(0)]);
  }

  /** Token 1 is being redeemed when token 0 is presented again and the family's revocation starts. */
  function Replayed(): World {
    First().(txs := [Finished(Session(1)), Redeeming(1), Revoking({0}, {0, 1}, {}, 1), Idle])
  }

  lemma ReplayStarts()
    ensures Run(First(), ReplaySteps()) == Replayed()
  {
    var one := Next(First(), Lookup(1, 1));
    assert one.txs == [Finished(Session(1)), Redeeming(1), Idle, Idle];
    var two := Next(one, Lookup(2, 0));
    assert two.txs == [Finished(Session(1)), Redeeming(1), Presented(0), Idle];
    assert Unrevoked(two.rows) == {0, 1};
    RunThree(First(), Lookup(1, 1), Lookup(2, 0), Revoke(2));
  }

  /** The refresh commits first; the revocation was waiting for its row. */
  function Overtaken(): World {
    World(map[0 := SPENT, 1 := SPENT, 2 := NEW],
          [Finished(Session(1)), Finished(Session(2)), Revoking({0}, {0, 1}, {}, 1), Idle],
          {0, 1, 2}, [Rotation(0, 1), Rotation(1, 2)])
  }

  lemma RefreshOvertakes()
    ensures Run(Replayed(), OvertakeSteps()) == Overtaken()
  {
    var consumed := Next(Replayed(), Consume(1));
    assert consumed.txs == [Finished(Session(1)), Consumed(1), Revoking({0}, {0, 1}, {}, 1), Idle];
    var rotated := Next(consumed, Insert(1, 2));
    assert rotated.txs == [Finished(Session(1)), Rotated(1, 2), Revoking({0}, {0, 1}, {}, 1), Idle];
    assert rotated.minted == {0, 1, 2};
    RunThree(Replayed(), Consume(1), Insert(1, 2), Commit(1));
  }

  /** The revocation revokes the rows it saw, and commits. */
  function Missed(): World {
    World(map[0 := Row(true, true), 1 := Row(true, true), 2 := NEW],
          [Finished(Session(1)), Finished(Session(2)), Finished(Ended), Idle],
          {0, 1, 2}, [Rotation(0, 1), Rotation(1, 2)])
  }

  /** The revocation has the rows it saw, both spent by now. */
  function Reached(): World {
    Overtaken().(txs := [Finished(Session(1)), Finished(Session(2)), Revoking({0}, {}, {0, 1}, 1), Idle])
  }

  lemma RevocationReaches()
    ensures Next(Next(Overtaken(), Reach(2, 0)), Reach(2, 1)) == Reached()
  {
    assert {0, 1} - {0} == {1} && {} + {0} == {0} && {1} - {1} == {} && {0} + {1} == {0, 1};
    var one := Next(Overtaken(), Reach(2, 0));
    assert one.txs == [Finished(Session(1)), Finished(Session(2)), Revoking({0}, {1}, {0}, 1), Idle];
  }

  lemma RevocationMisses()
    ensures Run(Overtaken(), RevokeSteps()) == Missed()
  {
    RevocationReaches();
    assert Next(Reached(), Commit(2)) == Missed();
    hide Next;
    RunThree(Overtaken(), Reach(2, 0), Reach(2, 1), Commit(2));
  }

  lemma FourPhases(w0: World, a: seq<Step>, b: seq<Step>, c: seq<Step>, d: seq<Step>)
    ensures Run(w0, a + b + c + d) == Run(Run(Run(Run(w0, a), b), c), d)
  {
    hide Run;
    RunAppend(w0, a, b);
    RunAppend(w0, a + b, c);
    RunAppend(w0, a + b + c, d);
  }

  /** After `before` a revocation has committed; after `later` a token of the family has been redeemed all the same. */
  ghost predicate LivesOn(before: seq<Step>, later: seq<Step>) {
    var w := Run(Init(4, 0), before);
    |w.txs| == 4 && w.txs[2] == Finished(Ended) && !FamilyEnded(w) && Run(w, later).txs[3] == Finished(Session(3))
  }

  /** A replay whose revocation commits, and yet the family lives on: its revocation started before, and committed
      after, a refresh of the live token, and the successor yields a session afterwards. */
  lemma RevocationCanMissTheSuccessor()
    ensures exists before, later :: LivesOn(before, later)
  {
    hide Run, Init, First, Replayed, Overtaken, Missed, FirstSteps, ReplaySteps, OvertakeSteps, RevokeSteps, LaterSteps;
    FirstRefresh();
    ReplayStarts();
    RefreshOvertakes();
    RevocationMisses();
    SuccessorRefreshes();
    FourPhases(Init(4, 0), FirstSteps(), ReplaySteps(), OvertakeSteps(), RevokeSteps());
    assert LivesOn(FirstSteps() + ReplaySteps() + OvertakeSteps() + RevokeSteps(), LaterSteps());
  }

  lemma SuccessorRefreshes()
    ensures Missed().txs[2] == Finished(Ended) && !FamilyEnded(Missed())
    ensures |Missed().txs| == 4 && Run(Missed(), LaterSteps()).txs[3] == Finished(Session(3))
  {
    var w := Missed();
    assert Live(w.rows[2]);
    var held := Next(w, Lookup(3, 2));
    assert held.txs == [Finished(Session(1)), Finished(Session(2)), Finished(Ended), Redeeming(2)];
    var consumed := Next(held, Consume(3));
    assert consumed.txs == [Finished(Session(1)), Finished(Session(2)), Finished(Ended), Consumed(2)];
    var rotated := Next(consumed, Insert(3, 3));
    assert rotated.txs == [Finished(Session(1)), Finished(Session(2)), Finished(Ended), Rotated(2, 3)];
    RunThree(w, Lookup(3, 2), Consume(3), Insert(3, 3));
    RunOne(rotated, Commit(3));
    RunAppend(w, [Lookup(3, 2), Consume(3), Insert(3, 3)], [Commit(3)]);
  }
}
