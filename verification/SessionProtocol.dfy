/** Any number of pods resolving events of one visitor at once: each call is its own little
    machine of Redis commands, the scheduler interleaves them freely, and any command may be
    refused or lose its reply. Keys do not expire. */
module SessionProtocol {
  import opened Basics
  import opened SessionState
  import opened Sessions

  datatype World = World(key: Option<Stored>, pcs: seq<Pc>)

  datatype Fate = Healthy | Denied | ReplyLost

  /** The scheduler lets call i send its next command. */
  datatype Step = Step(i: nat, fate: Fate)

  function Init(calls: seq<Call>): (w: World)
    ensures |w.pcs| == |calls|
  {
    World(None, seq(|calls|, _ => AtGet))
  }

  function Next(calls: seq<Call>, who: Visitor, w: World, step: Step): (after: World)
    requires |w.pcs| == |calls|
    ensures |after.pcs| == |calls|
  {
    if step.i >= |calls| then w
    else
      var pc, call := w.pcs[step.i], calls[step.i];
      World(if step.fate.Denied? then w.key else Written(pc, w.key, call),
            w.pcs[step.i := if step.fate.Healthy? then Answered(pc, w.key, call, who) else Refused(pc, who)])
  }

  function Run(calls: seq<Call>, who: Visitor, w: World, steps: seq<Step>): (r: World)
    requires |w.pcs| == |calls|
    ensures |r.pcs| == |calls|
    decreases |steps|
  {
    if steps == [] then w else Run(calls, who, Next(calls, who, w, steps[0]), steps[1..])
  }

  /** Every event is within reach of every stored form of every other. */
  ghost predicate Spread(calls: seq<Call>) {
    forall i, j :: 0 <= i < |calls| && 0 <= j < |calls| ==> Within(calls[i].occur, Watermark(calls[j].occur))
  }

  predicate Stitched(pc: Pc) { pc.Done? && pc.out.reason in {NoDegrade, SlideFailed} }

  // ----- the invariant

  predicate PcAgrees(pc: Pc, key: Option<Stored>, who: Visitor) {
    match pc
    case AtGet => true
    case AtMint(corrupt) => !corrupt
    case AtSlide(sid) => HoldsSession(key) && sid == key.value.sid
    case AtOverwrite(_) => false
    case Done(out) =>
      if Stitched(pc) then HoldsSession(key) && out.sid == key.value.sid
      else out == Outcome(FallbackName(who), GetFailed) || out == Outcome(FallbackName(who), MintFailed)
  }

  ghost predicate Agreeing(calls: seq<Call>, who: Visitor, w: World)
    requires |w.pcs| == |calls|
  {
    && (w.key.Some? ==> HoldsSession(w.key) &&
                        exists j :: 0 <= j < |calls| && w.key.value.last == Watermark(calls[j].occur))
    && forall i :: 0 <= i < |calls| ==> PcAgrees(w.pcs[i], w.key, who)
  }

  lemma StepAgrees(calls: seq<Call>, who: Visitor, w: World, step: Step)
    requires |w.pcs| == |calls| && Spread(calls) && Agreeing(calls, who, w)
    ensures var after := Next(calls, who, w, step);
            Agreeing(calls, who, after) && (w.key.Some? ==> after.key.value.sid == w.key.value.sid)
  {
    hide Within, Watermark, FallbackName, StaleName;
    if step.i < |calls| {
      var pc, call := w.pcs[step.i], calls[step.i];
      if w.key.Some? {
        assert Joins(w.key.value, call.occur);
        assert PcAgrees(Answered(pc, w.key, call, who), w.key, who);
      }
      var after := Next(calls, who, w, step);
      assert after.key == w.key || after.key.value.last == Watermark(calls[step.i].occur);
      assert PcAgrees(after.pcs[step.i], after.key, who);
    }
  }

  lemma {:induction false} RunAgrees(calls: seq<Call>, who: Visitor, w: World, steps: seq<Step>)
    requires |w.pcs| == |calls| && Spread(calls) && Agreeing(calls, who, w)
    ensures Agreeing(calls, who, Run(calls, who, w, steps))
    decreases |steps|
  {
    if steps != [] {
      StepAgrees(calls, who, w, steps[0]);
      RunAgrees(calls, who, Next(calls, who, w, steps[0]), steps[1..]);
    }
  }

  /** Under every schedule and every pattern of failures, all calls that were stitched return one
      id, and each of the others returns the visitor-day fallback and says so. */
  lemma Agreement(calls: seq<Call>, who: Visitor, steps: seq<Step>, i: nat, j: nat)
    requires Spread(calls) && i < |calls| && j < |calls|
    ensures var w := Run(calls, who, Init(calls), steps);
            && (Stitched(w.pcs[i]) && Stitched(w.pcs[j]) ==> w.pcs[i].out.sid == w.pcs[j].out.sid)
            && (w.pcs[i].Done? && !Stitched(w.pcs[i]) ==>
                  w.pcs[i].out.sid == FallbackName(who) && w.pcs[i].out.reason in {GetFailed, MintFailed})
  {
    hide Within, Watermark, FallbackName, Next;
    RunAgrees(calls, who, Init(calls), steps);
    var w := Run(calls, who, Init(calls), steps);
    assert PcAgrees(w.pcs[i], w.key, who) && PcAgrees(w.pcs[j], w.key, who);
  }

  // ----- calls whose commands are answered

  /** None of call i's commands is refused or loses its reply. */
  ghost predicate Untroubled(steps: seq<Step>, i: nat) {
    forall k :: 0 <= k < |steps| && steps[k].i == i ==> steps[k].fate == Healthy
  }

  function Sends(steps: seq<Step>, i: nat): nat
    decreases |steps|
  {
    if steps == [] then 0 else (if steps[0].i == i then 1 else 0) + Sends(steps[1..], i)
  }

  /** Commands a call may still need. */
  function Left(pc: Pc): nat {
    match pc case AtGet => 3 case AtMint(_) => 2 case AtSlide(_) => 1 case AtOverwrite(_) => 1 case Done(_) => 0
  }

  predicate Clean(pc: Pc) {
    match pc
    case AtMint(corrupt) => !corrupt
    case AtOverwrite(corrupt) => !corrupt
    case Done(out) => out.reason == NoDegrade
    case _ => true
  }

  predicate NotCorrupt(key: Option<Stored>) { key.Some? ==> key.value.Session? }

  lemma {:induction false} UntroubledRun(calls: seq<Call>, who: Visitor, w: World, steps: seq<Step>, i: nat)
    requires |w.pcs| == |calls| && i < |calls| && Untroubled(steps, i) && Clean(w.pcs[i]) && NotCorrupt(w.key)
    ensures var after := Run(calls, who, w, steps);
      Clean(after.pcs[i]) &&
        Left(after.pcs[i]) <= (if Left(w.pcs[i]) < Sends(steps, i) then 0 else Left(w.pcs[i]) - Sends(steps, i))
    decreases |steps|
  {
    hide Within, Watermark, FallbackName, StaleName;
    if steps != [] {
      var next := Next(calls, who, w, steps[0]);
      assert steps[0].i == i ==> steps[0].fate == Healthy;
      assert forall k :: 0 <= k < |steps[1..]| ==> steps[1..][k] == steps[k + 1];
      UntroubledRun(calls, who, next, steps[1..], i);
    }
  }

  /** A call whose own commands are all answered never falls back, whatever happens to the others and however they are
      scheduled, and it has its session after at most three commands. */
  lemma UntroubledCallsSucceed(calls: seq<Call>, who: Visitor, steps: seq<Step>, i: nat)
    requires i < |calls| && Untroubled(steps, i)
    ensures var pc := Run(calls, who, Init(calls), steps).pcs[i];
      && (pc.Done? ==> pc.out.reason == NoDegrade)
      && (Sends(steps, i) >= 3 ==> pc.Done?)
  {
    UntroubledRun(calls, who, Init(calls), steps, i);
  }

  // ----- the condition is exact

  ghost predicate AlwaysAgree(calls: seq<Call>, who: Visitor) {
    forall steps: seq<Step>, i, j :: 0 <= i < |calls| && 0 <= j < |calls| ==>
      var w := Run(calls, who, Init(calls), steps);
      Stitched(w.pcs[i]) && Stitched(w.pcs[j]) ==> w.pcs[i].out.sid == w.pcs[j].out.sid
  }

  /** Call j alone, then call i alone. */
  function OneThenOther(j: nat, i: nat): seq<Step> {
    [Step(j, Healthy), Step(j, Healthy), Step(i, Healthy), Step(i, Healthy), Step(i, Healthy)]
  }

  lemma OutOfReachSplits(calls: seq<Call>, who: Visitor, i: nat, j: nat)
    requires i < |calls| && j < |calls| && calls[i].minted != calls[j].minted
    requires !Within(calls[i].occur, Watermark(calls[j].occur))
    ensures var w := Run(calls, who, Init(calls), OneThenOther(j, i));
            Stitched(w.pcs[i]) && Stitched(w.pcs[j]) && w.pcs[i].out.sid != w.pcs[j].out.sid
  {
    hide Within, Watermark, StaleName;
    var s := OneThenOther(j, i);
    var w0 := Init(calls);
    var w1 := Next(calls, who, w0, s[0]);
    var w2 := Next(calls, who, w1, s[1]);
    assert w2.pcs[j] == Done(Outcome(calls[j].minted, NoDegrade)) && w2.key == Saved(calls[j].minted, calls[j]);
    var w3 := Next(calls, who, w2, s[2]);
    var w4 := Next(calls, who, w3, s[3]);
    var w5 := Next(calls, who, w4, s[4]);
    assert w3.pcs[i] == AtMint(false);
    assert StaleName(who, calls[i].occur)[|who.distinctId|] == '|' by { StaleHasBar(who, calls[i].occur); }
    assert w5.pcs[i].Done? && w5.pcs[i].out.sid in {calls[i].minted, StaleName(who, calls[i].occur)};
    RunFive(calls, who, w0, s);
  }

  lemma StaleHasBar(who: Visitor, occur: Instant)
    ensures |StaleName(who, occur)| > |who.distinctId| && StaleName(who, occur)[|who.distinctId|] == '|'
  {
  }

  lemma RunFive(calls: seq<Call>, who: Visitor, w: World, s: seq<Step>)
    requires |w.pcs| == |calls| && |s| == 5
    ensures Run(calls, who, w, s) ==
            Next(calls, who,
              Next(calls, who, Next(calls, who, Next(calls, who, Next(calls, who, w, s[0]), s[1]), s[2]), s[3]), s[4])
  {
    hide Next, Run;
    var w1 := Next(calls, who, w, s[0]);
    var w2 := Next(calls, who, w1, s[1]);
    var w3 := Next(calls, who, w2, s[2]);
    var w4 := Next(calls, who, w3, s[3]);
    assert s[0..] == s;
    RunFrom(calls, who, w, s, 0);
    RunFrom(calls, who, w1, s, 1);
    RunFrom(calls, who, w2, s, 2);
    RunFrom(calls, who, w3, s, 3);
    RunFrom(calls, who, w4, s, 4);
    RunDone(calls, who, Next(calls, who, w4, s[4]), s);
  }

  lemma RunFrom(calls: seq<Call>, who: Visitor, w: World, s: seq<Step>, k: nat)
    requires |w.pcs| == |calls| && k < |s|
    ensures Run(calls, who, w, s[k..]) == Run(calls, who, Next(calls, who, w, s[k]), s[k + 1..])
  {
    hide Next;
    assert s[k..][0] == s[k] && s[k..][1..] == s[k + 1..];
  }

  lemma RunDone(calls: seq<Call>, who: Visitor, w: World, s: seq<Step>)
    requires |w.pcs| == |calls|
    ensures Run(calls, who, w, s[|s|..]) == w
  {
  }

  /** Pods agree under every schedule exactly when every event is within reach of every other. */
  lemma AgreementIsExact(calls: seq<Call>, who: Visitor)
    requires forall a, b :: 0 <= a < b < |calls| ==> calls[a].minted != calls[b].minted
    ensures AlwaysAgree(calls, who) <==> Spread(calls)
  {
    hide Within, Watermark, Run, Init;
    if Spread(calls) {
      forall steps: seq<Step>, i, j | 0 <= i < |calls| && 0 <= j < |calls|
        ensures var w := Run(calls, who, Init(calls), steps);
                Stitched(w.pcs[i]) && Stitched(w.pcs[j]) ==> w.pcs[i].out.sid == w.pcs[j].out.sid
      {
        Agreement(calls, who, steps, i, j);
      }
    } else {
      var i, j :| 0 <= i < |calls| && 0 <= j < |calls| && !Within(calls[i].occur, Watermark(calls[j].occur));
      SelfWithin(calls[i].occur);
      OutOfReachSplits(calls, who, i, j);
    }
  }

  lemma SelfWithin(t: Instant)
    ensures Within(t, Watermark(t))
  {
  }

  /** On whole milliseconds "within reach" is "pairwise at most thirty minutes apart" ... */
  lemma SpreadOnWholeMillis(calls: seq<Call>)
    requires forall i :: 0 <= i < |calls| ==> WholeMillis(calls[i].occur)
    ensures Spread(calls) <==>
      forall i, j :: 0 <= i < |calls| && 0 <= j < |calls| ==> Within(calls[i].occur, calls[j].occur)
  {
    forall j | 0 <= j < |calls| ensures Watermark(calls[j].occur) == calls[j].occur {
      WatermarkKeepsOrder(calls[j].occur, calls[j].occur);
    }
  }

  /** ... but below a millisecond it is more: two events exactly thirty minutes apart can be split,
      because the stored time of the first has lost half a millisecond. */
  lemma PairwiseGapsAreNotEnough(who: Visitor)
    ensures var calls := [Call(500_000, "a"), Call(INACTIVITY + 500_000, "b")];
            && (forall i, j :: 0 <= i < |calls| && 0 <= j < |calls| ==> Within(calls[i].occur, calls[j].occur))
            && !AlwaysAgree(calls, who)
  {
    var calls := [Call(500_000, "a"), Call(INACTIVITY + 500_000, "b")];
    assert Watermark(calls[0].occur) == 0;
    assert !Within(calls[1].occur, Watermark(calls[0].occur));
    AgreementIsExact(calls, who);
  }
}
