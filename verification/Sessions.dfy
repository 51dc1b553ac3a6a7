/** The session resolver over a Redis key: one call at a time, then whole streams of calls. */
module Sessions {
  import opened Basics
  import opened SessionState

  datatype Reason = NoDegrade | GetFailed | MintFailed | WriteFailed | SlideFailed | CorruptState

  datatype Outcome = Outcome(sid: string, reason: Reason)

  /** One event to stitch: its time and the id uuid.NewString returns for it. */
  datatype Call = Call(occur: Instant, minted: PlainId)

  /** The key's value after a call, and what the call returns. */
  datatype Effect = Effect(key: Option<Stored>, out: Outcome)

  /** What reading back the session this call writes under `sid` gives. */
  function Saved(sid: PlainId, call: Call): Option<Stored> { Some(Session(sid, Watermark(call.occur))) }

  predicate Joins(stored: Stored, occur: Instant) {
    stored.Session? && Within(occur, stored.last)
  }

  /** The event lies before the stored session, out of its reach. */
  predicate Stranded(stored: Stored, occur: Instant) {
    stored.Session? && !Within(occur, stored.last) && occur <= stored.last
  }

  // ----- the commands of one call: GET, then SET NX GET, then perhaps SET

  /** Where a call stands: the command it sends next, or its result. */
  datatype Pc =
    | AtGet
    | AtMint(corrupt: bool)
    | AtSlide(sid: PlainId)
    | AtOverwrite(corrupt: bool)
    | Done(out: Outcome)

  function CorruptOrNone(corrupt: bool): Reason { if corrupt then CorruptState else NoDegrade }

  function AfterGet(seen: Option<Stored>, call: Call): Pc {
    if seen.None? then AtMint(false)
    else
      var stored := seen.value;
      if Joins(stored, call.occur) then AfterJoin(stored.sid, stored.last, call.occur)
      else AtMint(stored.Corrupt?)
  }

  function AfterJoin(sid: PlainId, last: Instant, occur: Instant): Pc {
    if last < occur then AtSlide(sid) else Done(Outcome(sid, NoDegrade))
  }

  /** SET NX GET answered with the prior value; it wrote the minted session only over an absent key. */
  function AfterMint(prior: Option<Stored>, call: Call, who: Visitor, corrupt: bool): Pc {
    if prior.None? then Done(Outcome(call.minted, CorruptOrNone(corrupt)))
    else
      var stored := prior.value;
      if Joins(stored, call.occur) then AfterJoin(stored.sid, stored.last, call.occur)
      else if stored.Session? && call.occur <= stored.last then
        Done(Outcome(StaleName(who, call.occur), NoDegrade))
      else AtOverwrite(corrupt || stored.Corrupt?)
  }

  function Fallback(who: Visitor, reason: Reason): Pc { Done(Outcome(FallbackName(who), reason)) }

  /** The value the command of `pc` leaves in the key when it is carried out. */
  function Written(pc: Pc, key: Option<Stored>, call: Call): Option<Stored> {
    match pc
    case AtMint(_) => if key.None? then Saved(call.minted, call) else key
    case AtSlide(sid) => Saved(sid, call)
    case AtOverwrite(_) => Saved(call.minted, call)
    case _ => key
  }

  /** Where the call goes when its command is answered, respectively refused. */
  function Answered(pc: Pc, key: Option<Stored>, call: Call, who: Visitor): Pc {
    match pc
    case AtGet => AfterGet(key, call)
    case AtMint(corrupt) => AfterMint(key, call, who, corrupt)
    case AtSlide(sid) => Done(Outcome(sid, NoDegrade))
    case AtOverwrite(corrupt) => Done(Outcome(call.minted, CorruptOrNone(corrupt)))
    case Done(_) => pc
  }

  function Refused(pc: Pc, who: Visitor): Pc {
    match pc
    case AtGet => Fallback(who, GetFailed)
    case AtMint(_) => Fallback(who, MintFailed)
    case AtSlide(sid) => Done(Outcome(sid, SlideFailed))
    case AtOverwrite(_) => Fallback(who, WriteFailed)
    case Done(_) => pc
  }

  // ----- the session rule one healthy, undisturbed call implements

  function Resolve(key: Option<Stored>, call: Call, who: Visitor): Effect {
    var minted := Saved(call.minted, call);
    if key.None? then Effect(minted, Outcome(call.minted, NoDegrade))
    else
      var stored := key.value;
      if Joins(stored, call.occur) then
        Effect(if stored.last < call.occur then Saved(stored.sid, call) else key,
               Outcome(stored.sid, NoDegrade))
      else if Stranded(stored, call.occur) then Effect(key, Outcome(StaleName(who, call.occur), NoDegrade))
      else Effect(minted, Outcome(call.minted, CorruptOrNone(stored.Corrupt?)))
  }

  /** Which Redis commands of one call are refused. */
  datatype Faults = Faults(get: bool, mint: bool, write: bool)

  const HEALTHY := Faults(false, false, false)

  /** A call that reads `seen` and finds `raced` in the key when it comes to mint. */
  function CallEffect(seen: Option<Stored>, raced: Option<Stored>, call: Call, who: Visitor, f: Faults): Effect {
    if f.get then Effect(seen, Refused(AtGet, who).out)
    else
      var first := AfterGet(seen, call);
      if !first.AtMint? then Finish(first, seen, call, who, f.write)
      else if f.mint then Effect(raced, Refused(first, who).out)
      else Finish(Answered(first, raced, call, who), Written(first, raced, call), call, who, f.write)
  }

  /** The closing SET, if any. */
  function Finish(pc: Pc, key: Option<Stored>, call: Call, who: Visitor, refused: bool): Effect
    requires pc.AtSlide? || pc.AtOverwrite? || pc.Done?
  {
    if refused then Effect(key, Refused(pc, who).out)
    else Effect(Written(pc, key, call), Answered(pc, key, call, who).out)
  }

  /** Undisturbed and healthy, the command sequence implements the session rule. */
  lemma SoloCallResolves(key: Option<Stored>, call: Call, who: Visitor)
    ensures CallEffect(key, key, call, who, HEALTHY) == Resolve(key, call, who)
  {
  }

  /** What one undisturbed call returns and leaves behind, in plain terms: it joins a session within thirty minutes
      of its last activity, is stranded before one, and otherwise begins one; a refused GET or mint, or a refused
      overwrite, gives the visitor-day fallback. */
  lemma SoloOutcome(key: Option<Stored>, call: Call, who: Visitor, f: Faults)
    ensures var e := CallEffect(key, key, call, who, f);
      var fallback := who.distinctId + "|" + who.day;
      if f.get then e == Effect(key, Outcome(fallback, GetFailed))
      else if key.Some? && key.value.Session? && -1_800_000_000_000 <= call.occur - key.value.last <= 1_800_000_000_000
      then e.out == Outcome(key.value.sid, if key.value.last < call.occur && f.write then SlideFailed else NoDegrade) &&
           e.key == (if key.value.last < call.occur && !f.write
                     then Some(Session(key.value.sid, Watermark(call.occur))) else key)
      else if f.mint then e == Effect(key, Outcome(fallback, MintFailed))
      else if key.None? then e ==
        Effect(Some(Session(call.minted, Watermark(call.occur))), Outcome(call.minted, NoDegrade))
      else if key.value.Session? && call.occur < key.value.last
      then e == Effect(key, Outcome(StaleName(who, call.occur), NoDegrade))
      else if f.write then e == Effect(key, Outcome(fallback, WriteFailed))
      else e == Effect(Some(Session(call.minted, Watermark(call.occur))),
                       Outcome(call.minted, if key.value.Corrupt? then CorruptState else NoDegrade))
  {
    hide Watermark, StaleName;
  }

  class Resolver {
    var redis: map<string, string>

    function Stored(key: string): Option<Stored>
      reads this
    {
      if key in redis then Some(ParseSession(redis[key])) else None
    }

    /** `raced` is what other pods have left in the key when this call reaches its mint. */
    method SessionID(projectID: string, who: Visitor, call: Call, f: Faults, raced: Option<string>)
      returns (out: Outcome)
      modifies this
      ensures var key := "cookieless:sess:" + projectID + ":" + who.distinctId;
              var racedState := if raced.Some? then Some(ParseSession(raced.value)) else None;
              && Effect(Stored(key), out) == CallEffect(old(Stored(key)), racedState, call, who, f)
              && redis - {key} == old(redis) - {key}
    {
      hide ParseSession, FormatSession, StaleName, Within, Watermark, FallbackName;
      SessionRoundTrip(call.minted, call.occur);
      var key := "cookieless:sess:" + projectID + ":" + who.distinctId;
      var corrupt := false;
      if f.get {
        return Outcome(FallbackName(who), GetFailed);
      }
      if key in redis {
        var stored := ParseSession(redis[key]);
        if Joins(stored, call.occur) {
          var reason := SlideSession(key, stored.sid, stored.last, call.occur, f.write);
          return Outcome(stored.sid, reason);
        }
        corrupt := stored.Corrupt?;
      }
      redis := if raced.Some? then redis[key := raced.value] else redis - {key};
      if f.mint {
        return Outcome(FallbackName(who), MintFailed);
      }
      out := MintSession(key, who, call, corrupt, f);
    }

    /** SET NX GET of the minted session, and what follows when another pod's is there. */
    method MintSession(key: string, who: Visitor, call: Call, found: bool, f: Faults) returns (out: Outcome)
      modifies this
      ensures var seen := old(Stored(key));
              Effect(Stored(key), out) ==
              Finish(AfterMint(seen, call, who, found),
                     if seen.None? then Saved(call.minted, call) else seen, call, who, f.write)
      ensures redis - {key} == old(redis) - {key}
    {
      hide ParseSession, FormatSession, StaleName, Within, Watermark, FallbackName;
      SessionRoundTrip(call.minted, call.occur);
      var corrupt := found;
      if key !in redis {
        redis := redis[key := FormatSession(call.minted, call.occur)];
        return Outcome(call.minted, CorruptOrNone(corrupt));
      }
      var prior := ParseSession(redis[key]);
      corrupt := corrupt || prior.Corrupt?;
      if Joins(prior, call.occur) {
        var reason := SlideSession(key, prior.sid, prior.last, call.occur, f.write);
        return Outcome(prior.sid, reason);
      }
      if prior.Session? && call.occur <= prior.last {
        return Outcome(StaleName(who, call.occur), NoDegrade);
      }
      if f.write {
        return Outcome(FallbackName(who), WriteFailed);
      }
      redis := redis[key := FormatSession(call.minted, call.occur)];
      return Outcome(call.minted, CorruptOrNone(corrupt));
    }

    /** Advances last-activity, only ever forwards. */
    method SlideSession(key: string, sid: PlainId, last: Instant, occur: Instant, refused: bool)
      returns (reason: Reason)
      modifies this
      ensures redis - {key} == old(redis) - {key}
      ensures Stored(key) == if last < occur && !refused then Some(Session(sid, Watermark(occur))) else old(Stored(key))
      ensures reason == if last < occur && refused then SlideFailed else NoDegrade
    {
      hide ParseSession, FormatSession;
      if occur <= last {
        return NoDegrade;
      }
      if refused {
        return SlideFailed;
      }
      SessionRoundTrip(sid, occur);
      redis := redis[key := FormatSession(sid, occur)];
      return NoDegrade;
    }
  }

  // ----- streams of calls on one key, Redis healthy

  function KeyAfter(key: Option<Stored>, calls: seq<Call>, who: Visitor): Option<Stored>
    decreases |calls|
  {
    if calls == [] then key else KeyAfter(Resolve(key, calls[0], who).key, calls[1..], who)
  }

  function Ids(key: Option<Stored>, calls: seq<Call>, who: Visitor): (ids: seq<string>)
    ensures |ids| == |calls|
    decreases |calls|
  {
    if calls == [] then []
    else var e := Resolve(key, calls[0], who); [e.out.sid] + Ids(e.key, calls[1..], who)
  }

  lemma {:induction false} StreamSplit(key: Option<Stored>, a: seq<Call>, b: seq<Call>, who: Visitor)
    ensures KeyAfter(key, a + b, who) == KeyAfter(KeyAfter(key, a, who), b, who)
    ensures Ids(key, a + b, who) == Ids(key, a, who) + Ids(KeyAfter(key, a, who), b, who)
    decreases |a|
  {
    if a == [] {
      assert a + b == b;
    } else {
      assert (a + b)[1..] == a[1..] + b;
      StreamSplit(Resolve(key, a[0], who).key, a[1..], b, who);
    }
  }

  lemma StreamSnoc(key: Option<Stored>, front: seq<Call>, last: Call, who: Visitor)
    ensures var e := Resolve(KeyAfter(key, front, who), last, who);
            && KeyAfter(key, front + [last], who) == e.key
            && Ids(key, front + [last], who) == Ids(key, front, who) + [e.out.sid]
  {
    StreamSplit(key, front, [last], who);
    var k := KeyAfter(key, front, who);
    assert KeyAfter(k, [last], who) == Resolve(k, last, who).key;
    assert Ids(k, [last], who) == [Resolve(k, last, who).out.sid];
  }

  predicate HoldsSession(key: Option<Stored>) { key.Some? && key.value.Session? }

  predicate LeavesStranded(key: Option<Stored>, occur: Instant) { key.Some? && Stranded(key.value, occur) }

  /** What every reader of the key can rely on: stored times are whole milliseconds. */
  predicate KeyValid(key: Option<Stored>) { HoldsSession(key) ==> WholeMillis(key.value.last) }

  lemma StepKeepsSession(key: Option<Stored>, call: Call, who: Visitor)
    requires HoldsSession(key) && KeyValid(key)
    ensures var after := Resolve(key, call, who).key;
            HoldsSession(after) && KeyValid(after) && key.value.last <= after.value.last
  {
    hide StaleName, Watermark, Within, WholeMillis;
    WatermarkKeepsOrder(if key.value.last < call.occur then key.value.last else call.occur, call.occur);
  }

  /** The stored last activity never moves back, whatever the order of the events. */
  lemma {:induction false} WatermarkMonotone(key: Option<Stored>, calls: seq<Call>, who: Visitor)
    requires HoldsSession(key) && KeyValid(key)
    ensures var after := KeyAfter(key, calls, who);
            HoldsSession(after) && KeyValid(after) && key.value.last <= after.value.last
    decreases |calls|
  {
    hide Resolve;
    if calls != [] {
      StepKeepsSession(key, calls[0], who);
      WatermarkMonotone(Resolve(key, calls[0], who).key, calls[1..], who);
    }
  }

  /** A stranded event leaves the id of every other event as it was without it. */
  lemma StrandedIsInvisible(key: Option<Stored>, before: seq<Call>, late: Call, later: seq<Call>, who: Visitor)
    requires LeavesStranded(KeyAfter(key, before, who), late.occur)
    ensures var with, without := Ids(key, before + [late] + later, who), Ids(key, before + later, who);
            with == without[..|before|] + [StaleName(who, late.occur)] + without[|before|..]
    ensures KeyAfter(key, before + [late] + later, who) == KeyAfter(key, before + later, who)
  {
    hide Resolve, StaleName;
    StreamSplit(key, before, later, who);
    StreamSplit(key, before + [late], later, who);
    StreamSnoc(key, before, late, who);
    StrandedCall(KeyAfter(key, before, who), late, who);
  }

  lemma StrandedCall(key: Option<Stored>, late: Call, who: Visitor)
    requires LeavesStranded(key, late.occur)
    ensures Resolve(key, late, who) == Effect(key, Outcome(StaleName(who, late.occur), NoDegrade))
  {
  }

  /** A stranded event replayed after any further traffic is still stranded and gets its first id. */
  lemma StrandedReplays(key: Option<Stored>, late: Call, later: seq<Call>, who: Visitor)
    requires KeyValid(key) && LeavesStranded(key, late.occur)
    ensures var again := KeyAfter(key, [late] + later, who);
            Resolve(again, late, who) == Effect(again, Resolve(key, late, who).out)
  {
    hide StaleName;
    assert ([late] + later)[1..] == later;
    WatermarkMonotone(key, later, who);
  }

  // ----- sessionization: a time-sorted stream is cut exactly at its long gaps

  /** The gap in front of event k is too long for it to join its predecessor. */
  predicate Breaks(calls: seq<Call>, k: nat)
    requires 0 < k < |calls|
  {
    !Within(calls[k].occur, Watermark(calls[k - 1].occur))
  }

  /** First event of the unbroken run that holds event k. */
  function RunStart(calls: seq<Call>, k: nat): (s: nat)
    requires k < |calls|
    ensures s <= k
    ensures forall i :: s < i <= k ==> !Breaks(calls, i)
    ensures s > 0 ==> Breaks(calls, s)
  {
    if k == 0 || Breaks(calls, k) then k else RunStart(calls, k - 1)
  }

  ghost predicate TimeSorted(calls: seq<Call>) {
    forall i, j :: 0 <= i <= j < |calls| ==> calls[i].occur <= calls[j].occur
  }

  lemma {:induction false} RunStartPrefix(calls: seq<Call>, n: nat, k: nat)
    requires k < n <= |calls|
    ensures RunStart(calls[..n], k) == RunStart(calls, k)
  {
    if k > 0 { RunStartPrefix(calls, n, k - 1); }
  }

  /** The state and id a sorted stream reaches with its event k. */
  function RunState(calls: seq<Call>, k: nat): Option<Stored>
    requires k < |calls|
  {
    Saved(calls[RunStart(calls, k)].minted, calls[k])
  }

  /** Every event carries the id minted by the first event of its run. */
  lemma {:induction false} IdsByRun(calls: seq<Call>, who: Visitor)
    requires TimeSorted(calls)
    ensures forall k :: 0 <= k < |calls| ==> Ids(None, calls, who)[k] == calls[RunStart(calls, k)].minted
    ensures calls != [] ==> KeyAfter(None, calls, who) == RunState(calls, |calls| - 1)
    decreases |calls|
  {
    hide RunStart, RunState, Resolve, TimeSorted;
    if calls != [] {
      var n := |calls| - 1;
      var front, last := calls[..n], calls[n];
      assert TimeSorted(front) by { SortedFront(calls); }
      IdsByRun(front, who);
      assert calls == front + [last];
      StreamSnoc(None, front, last, who);
      LastEvent(calls, who, KeyAfter(None, front, who));
      forall k | 0 <= k < n ensures RunStart(front, k) == RunStart(calls, k) { RunStartPrefix(calls, n, k); }
    }
  }

  lemma SortedFront(calls: seq<Call>)
    requires TimeSorted(calls) && calls != []
    ensures TimeSorted(calls[..|calls| - 1])
  {
  }

  /** The last event of a sorted stream joins its predecessor's run or starts one. */
  lemma LastEvent(calls: seq<Call>, who: Visitor, key: Option<Stored>)
    requires TimeSorted(calls) && calls != []
    requires key == if |calls| == 1 then None else RunState(calls[..|calls| - 1], |calls| - 2)
    ensures var n := |calls| - 1;
            var e := Resolve(key, calls[n], who);
            e.out.sid == calls[RunStart(calls, n)].minted && e.key == RunState(calls, n)
  {
    hide Resolve, Saved, Within, Watermark;
    var n := |calls| - 1;
    if n == 0 {
      FirstCall(calls[0], who);
    } else {
      RunStartPrefix(calls, n, n - 1);
      var start := RunStart(calls, n - 1);
      LaterCall(calls[start].minted, calls[n - 1], calls[n], who);
      assert RunStart(calls, n) == if Breaks(calls, n) then n else start;
    }
  }

  lemma FirstCall(call: Call, who: Visitor)
    ensures var e := Resolve(None, call, who); e.out.sid == call.minted && e.key == Saved(call.minted, call)
  {
  }

  /** A call right after an earlier one joins its session or starts its own. */
  lemma LaterCall(sid: PlainId, earlier: Call, call: Call, who: Visitor)
    requires earlier.occur <= call.occur
    ensures var e := Resolve(Saved(sid, earlier), call, who);
            var joined := if Within(call.occur, Watermark(earlier.occur)) then sid else call.minted;
            e.out.sid == joined && e.key == Saved(joined, call)
  {
    hide Within, StaleName;
    WatermarkKeepsOrder(earlier.occur, call.occur);
    WatermarkKeepsOrder(call.occur, call.occur);
    StoredTime(earlier.occur, call.occur);
  }

  lemma StoredTime(earlier: Instant, later: Instant)
    requires earlier <= later
    ensures Watermark(earlier) <= later
    ensures Watermark(earlier) == later ==> Watermark(later) == later
    ensures later <= Watermark(earlier) ==> Within(later, Watermark(earlier))
  {
    WatermarkKeepsOrder(earlier, earlier);
    WatermarkKeepsOrder(later, later);
  }

  /** Two events of a time-sorted stream share a session exactly when no gap between them is too long. */
  lemma SessionsAreMaximalRuns(calls: seq<Call>, who: Visitor, i: nat, j: nat)
    requires TimeSorted(calls) && i <= j < |calls|
    requires forall a, b :: 0 <= a < b < |calls| ==> calls[a].minted != calls[b].minted
    ensures Ids(None, calls, who)[i] == Ids(None, calls, who)[j] <==> forall k :: i < k <= j ==> !Breaks(calls, k)
  {
    IdsByRun(calls, who);
    if forall k :: i < k <= j ==> !Breaks(calls, k) {
      SameRun(calls, i, j);
    } else {
      assert RunStart(calls, j) > i;
    }
  }

  lemma {:induction false} SameRun(calls: seq<Call>, i: nat, j: nat)
    requires i <= j < |calls| && forall k :: i < k <= j ==> !Breaks(calls, k)
    ensures RunStart(calls, i) == RunStart(calls, j)
    decreases j
  {
    if i < j { SameRun(calls, i, j - 1); }
  }

  /** On whole milliseconds, the stored precision, "too long" is just "more than thirty minutes". */
  lemma BreaksOnWholeMillis(calls: seq<Call>, k: nat)
    requires 0 < k < |calls| && TimeSorted(calls) && WholeMillis(calls[k - 1].occur)
    ensures Breaks(calls, k) <==> calls[k].occur - calls[k - 1].occur > INACTIVITY
  {
    assert Watermark(calls[k - 1].occur) == calls[k - 1].occur;
  }
}
