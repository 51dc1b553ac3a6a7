/** Any number of pods asking for salts at once, over one Redis and one clock that does not run backwards. */
module SaltProtocol {
  import opened Basics
  import opened Salt

  /** A call: on which pod, for which day, and the salt it would mint. */
  datatype Call = Call(pod: nat, day: Day, minted: string)

  /** `first` records, for the proof, the first salt ever stored for a day. */
  datatype World = World(now: int, keys: map<int, Entry>, caches: map<nat, map<int, string>>, pcs: seq<Pc>,
                         first: map<int, string>)

  /** Time passes, or call i sends its next command. */
  datatype Step = Tick(elapsed: nat) | Send(i: nat, fate: Fate)

  function Init(calls: seq<Call>, now: int): (w: World)
    ensures |w.pcs| == |calls|
  {
    World(now, map[], map[], seq(|calls|, _ => AtStart), map[])
  }

  function CacheOf(w: World, pod: nat): map<int, string> { if pod in w.caches then w.caches[pod] else map[] }

  function KeyOf(w: World, day: Day): Option<Entry> { if day.On? && day.n in w.keys then Some(w.keys[day.n]) else None }

  function Next(calls: seq<Call>, w: World, step: Step): (after: World)
    requires |w.pcs| == |calls|
    ensures |after.pcs| == |calls|
  {
    match step
    case Tick(elapsed) => w.(now := w.now + elapsed)
    case Send(i, fate) =>
      if i >= |calls| then w
      else
        var c := calls[i];
        var v := StepCall(c.day, c.minted, View(w.pcs[i], CacheOf(w, c.pod), KeyOf(w, c.day)), w.now, fate);
        var w' := w.(pcs := w.pcs[i := v.pc], caches := w.caches[c.pod := v.cache]);
        if c.day.On? && v.key.Some? then
          w'.(keys := w.keys[c.day.n := v.key.value],
              first := if c.day.n in w.first then w.first else w.first[c.day.n := v.key.value.salt])
        else w'
  }

  function Run(calls: seq<Call>, w: World, steps: seq<Step>): (r: World)
    requires |w.pcs| == |calls|
    ensures |r.pcs| == |calls|
    decreases |steps|
  {
    if steps == [] then w else Run(calls, Next(calls, w, steps[0]), steps[1..])
  }

  // ----- the invariant

  /** While day n is in the window or ahead of it, its key, once written, holds the first salt and stays. */
  predicate KeyGood(w: World, n: int) {
    w.now < Leaves(n) ==>
      (n in w.keys <==> n in w.first) &&
      (n in w.first ==> w.keys[n].salt == w.first[n] && w.keys[n].expires >= Leaves(n))
  }

  predicate CacheGood(w: World, pod: nat, n: int) {
    n in CacheOf(w, pod) ==> n in w.first && CacheOf(w, pod)[n] == w.first[n]
  }

  predicate PcGood(w: World, c: Call, pc: Pc) {
    match pc
    case AtStart => true
    case AtGet(ttl) => c.day.On? && w.now + ttl >= Leaves(c.day.n)
    case AtMint(ttl) => c.day.On? && w.now + ttl >= Leaves(c.day.n)
    case AtReread => c.day.On? && (w.now < Leaves(c.day.n) ==> c.day.n in w.first)
    case Done(out, at) =>
      at <= w.now &&
        (out.Got? ==> c.day.On? && (at < Leaves(c.day.n) ==> c.day.n in w.first && out.salt == w.first[c.day.n]))
  }

  ghost predicate Good(calls: seq<Call>, w: World) {
    && |w.pcs| == |calls|
    && (forall n :: KeyGood(w, n))
    && (forall pod, n :: CacheGood(w, pod, n))
    && (forall i :: 0 <= i < |calls| ==> PcGood(w, calls[i], w.pcs[i]))
  }

  lemma TickIsGood(calls: seq<Call>, w: World, elapsed: nat)
    requires Good(calls, w)
    ensures Good(calls, Next(calls, w, Tick(elapsed)))
  {
    var after := Next(calls, w, Tick(elapsed));
    forall n ensures KeyGood(after, n) { assert KeyGood(w, n); }
    forall pod, n ensures CacheGood(after, pod, n) { assert CacheGood(w, pod, n); }
    forall i | 0 <= i < |calls| ensures PcGood(after, calls[i], after.pcs[i]) { assert PcGood(w, calls[i], w.pcs[i]); }
  }

  lemma SendIsGood(calls: seq<Call>, w: World, i: nat, fate: Fate)
    requires Good(calls, w) && i < |calls|
    ensures Good(calls, Next(calls, w, Send(i, fate)))
  {
    var after := Next(calls, w, Send(i, fate));
    forall n ensures KeyGood(after, n) { SendKey(calls, w, i, fate, n); }
    forall pod, n ensures CacheGood(after, pod, n) { SendCache(calls, w, i, fate, pod, n); }
    forall j | 0 <= j < |calls| ensures PcGood(after, calls[j], after.pcs[j]) { SendPc(calls, w, i, fate, j); }
  }

  lemma SendKey(calls: seq<Call>, w: World, i: nat, fate: Fate, n: int)
    requires Good(calls, w) && i < |calls|
    ensures KeyGood(Next(calls, w, Send(i, fate)), n)
    ensures n in w.first ==>
      n in Next(calls, w, Send(i, fate)).first && Next(calls, w, Send(i, fate)).first[n] == w.first[n]
  {
    hide Pruned;
    assert KeyGood(w, n) && PcGood(w, calls[i], w.pcs[i]);
  }

  lemma SendCache(calls: seq<Call>, w: World, i: nat, fate: Fate, pod: nat, n: int)
    requires Good(calls, w) && i < |calls|
    ensures CacheGood(Next(calls, w, Send(i, fate)), pod, n)
  {
    hide StepCall, Pruned, InWindow;
    assert CacheGood(w, pod, n) && KeyGood(w, n);
    SendKey(calls, w, i, fate, n);
    assert KeyGood(Next(calls, w, Send(i, fate)), n);
    LifetimeIsTheWindow(n, w.now);
    var c := calls[i];
    StepCache(c.day, c.minted, View(w.pcs[i], CacheOf(w, c.pod), KeyOf(w, c.day)), w.now, fate, n);
  }

  /** A call adds to its pod's cache only the salt of the key, for a day in the window. */
  lemma StepCache(day: Day, minted: string, v: View, now: int, fate: Fate, n: int)
    ensures var v' := StepCall(day, minted, v, now, fate);
      n in v'.cache ==>
        (n in v.cache && v'.cache[n] == v.cache[n]) ||
        (day == On(n) && InWindow(n, now) && v'.key.Some? && v'.cache[n] == v'.key.value.salt)
  {
  }

  lemma SendPc(calls: seq<Call>, w: World, i: nat, fate: Fate, j: nat)
    requires Good(calls, w) && i < |calls| && j < |calls|
    ensures PcGood(Next(calls, w, Send(i, fate)), calls[j], Next(calls, w, Send(i, fate)).pcs[j])
  {
    assert PcGood(w, calls[j], w.pcs[j]);
    if calls[j].day.On? { SendKey(calls, w, i, fate, calls[j].day.n); }
    if i == j {
      if calls[i].day.On? { assert KeyGood(w, calls[i].day.n) && CacheGood(w, calls[i].pod, calls[i].day.n); }
      hide PcGood, Good, Next, KeyGood, CacheGood;
      match w.pcs[i]
      case AtStart => SentStart(calls, w, i, fate);
      case AtGet(_) => SentGet(calls, w, i, fate);
      case AtMint(_) => SentMint(calls, w, i, fate);
      case AtReread => SentReread(calls, w, i, fate);
      case Done(_, _) => SentDone(calls, w, i, fate);
    } else {
      PcStays(w, Next(calls, w, Send(i, fate)), calls[j], w.pcs[j]);
    }
  }

  /** Nothing that is good for a call is lost while the first salts stay. */
  lemma PcStays(w: World, after: World, c: Call, pc: Pc)
    requires PcGood(w, c, pc) && after.now == w.now
    requires c.day.On? && c.day.n in w.first ==> c.day.n in after.first && after.first[c.day.n] == w.first[c.day.n]
    ensures PcGood(after, c, pc)
  {
  }

  /** What a call relies on when it sends. */
  ghost predicate Relies(calls: seq<Call>, w: World, i: nat) {
    && i < |calls| == |w.pcs| && PcGood(w, calls[i], w.pcs[i])
    && (calls[i].day.On? ==> KeyGood(w, calls[i].day.n) && CacheGood(w, calls[i].pod, calls[i].day.n))
  }

  lemma SentStart(calls: seq<Call>, w: World, i: nat, fate: Fate)
    requires Relies(calls, w, i) && w.pcs[i].AtStart?
    ensures PcGood(Next(calls, w, Send(i, fate)), calls[i], Next(calls, w, Send(i, fate)).pcs[i])
  {
    hide KeyGood;
    if calls[i].day.On? { LifetimeIsTheWindow(calls[i].day.n, w.now); }
  }

  lemma SentGet(calls: seq<Call>, w: World, i: nat, fate: Fate)
    requires Relies(calls, w, i) && w.pcs[i].AtGet?
    ensures PcGood(Next(calls, w, Send(i, fate)), calls[i], Next(calls, w, Send(i, fate)).pcs[i])
  {
    hide CacheGood, CacheSalt, Leaves;
  }

  lemma SentMint(calls: seq<Call>, w: World, i: nat, fate: Fate)
    requires Relies(calls, w, i) && w.pcs[i].AtMint?
    ensures PcGood(Next(calls, w, Send(i, fate)), calls[i], Next(calls, w, Send(i, fate)).pcs[i])
  {
    hide CacheGood, CacheSalt, Leaves;
  }

  lemma SentReread(calls: seq<Call>, w: World, i: nat, fate: Fate)
    requires Relies(calls, w, i) && w.pcs[i].AtReread?
    ensures PcGood(Next(calls, w, Send(i, fate)), calls[i], Next(calls, w, Send(i, fate)).pcs[i])
  {
    hide CacheGood, CacheSalt, Leaves;
  }

  lemma SentDone(calls: seq<Call>, w: World, i: nat, fate: Fate)
    requires Relies(calls, w, i) && w.pcs[i].Done?
    ensures PcGood(Next(calls, w, Send(i, fate)), calls[i], Next(calls, w, Send(i, fate)).pcs[i])
  {
    hide CacheGood, CacheSalt, Leaves;
  }

  lemma {:induction false} RunIsGood(calls: seq<Call>, w: World, steps: seq<Step>)
    requires |w.pcs| == |calls| && Good(calls, w)
    ensures Good(calls, Run(calls, w, steps))
    decreases |steps|
  {
    hide Good, Next;
    if steps != [] {
      StepIsGood(calls, w, steps[0]);
      RunIsGood(calls, Next(calls, w, steps[0]), steps[1..]);
    }
  }

  lemma StepIsGood(calls: seq<Call>, w: World, step: Step)
    requires Good(calls, w)
    ensures Good(calls, Next(calls, w, step))
  {
    match step
    case Tick(elapsed) => TickIsGood(calls, w, elapsed);
    case Send(i, fate) => if i < |calls| { SendIsGood(calls, w, i, fate); }
  }

  lemma InitIsGood(calls: seq<Call>, now: int)
    ensures Good(calls, Init(calls, now))
  {
  }

  // ----- calls whose commands are answered

  /** None of call i's commands is refused or loses its reply. */
  ghost predicate Untroubled(steps: seq<Step>, i: nat) {
    forall k :: 0 <= k < |steps| && steps[k].Send? && steps[k].i == i ==> steps[k].fate == Healthy
  }

  function Sends(steps: seq<Step>, i: nat): nat
    decreases |steps|
  {
    if steps == [] then 0 else (if steps[0].Send? && steps[0].i == i then 1 else 0) + Sends(steps[1..], i)
  }

  /** Commands a call may still need, its start included. */
  function Left(pc: Pc): nat {
    match pc case AtStart => 4 case AtGet(_) => 3 case AtMint(_) => 2 case AtReread => 1 case Done(_, _) => 0
  }

  /** Failed only once the day has left the window; rejected only outside it. */
  predicate Clean(pc: Pc, n: int) {
    pc.Done? ==>
      && (pc.out.Failed? ==> pc.at >= Leaves(n))
      && (pc.out.Rejected? ==> pc.at < n * DAY_NANOS || pc.at >= Leaves(n))
  }

  lemma SendIsClean(calls: seq<Call>, w: World, i: nat)
    requires Relies(calls, w, i) && calls[i].day.On? && Clean(w.pcs[i], calls[i].day.n)
    ensures var after := Next(calls, w, Send(i, Healthy));
      Clean(after.pcs[i], calls[i].day.n) &&
        Left(after.pcs[i]) <= (if Left(w.pcs[i]) == 0 then 0 else Left(w.pcs[i]) - 1)
  {
    hide CacheSalt;
    LifetimeIsTheWindow(calls[i].day.n, w.now);
  }

  lemma {:induction false} UntroubledRun(calls: seq<Call>, w: World, steps: seq<Step>, i: nat)
    requires |w.pcs| == |calls| && Good(calls, w) && i < |calls| && calls[i].day.On? && Untroubled(steps, i)
    requires Clean(w.pcs[i], calls[i].day.n)
    ensures var after := Run(calls, w, steps);
      && Clean(after.pcs[i], calls[i].day.n)
      && Left(after.pcs[i]) <= if Left(w.pcs[i]) < Sends(steps, i) then 0 else Left(w.pcs[i]) - Sends(steps, i)
    decreases |steps|
  {
    hide Good, Next, Clean;
    if steps != [] {
      var next := Next(calls, w, steps[0]);
      StepIsGood(calls, w, steps[0]);
      assert forall k :: 0 <= k < |steps[1..]| ==> steps[1..][k] == steps[k + 1];
      if steps[0].Send? && steps[0].i == i {
        assert steps[0] == Send(i, Healthy);
        GoodIsRelied(calls, w, i);
        SendIsClean(calls, w, i);
      } else {
        OthersStay(calls, w, steps[0], i);
      }
      UntroubledRun(calls, next, steps[1..], i);
    }
  }

  lemma GoodIsRelied(calls: seq<Call>, w: World, i: nat)
    requires Good(calls, w) && i < |calls|
    ensures Relies(calls, w, i)
  {
  }

  lemma OthersStay(calls: seq<Call>, w: World, step: Step, i: nat)
    requires |w.pcs| == |calls| && i < |calls| && !(step.Send? && step.i == i)
    ensures Next(calls, w, step).pcs[i] == w.pcs[i]
  {
  }

  /** Whatever the others do and however all are scheduled: a call whose own commands are all answered is done after at
      most four of them, and if that is before its day leaves the window it has the day's one salt, unless it was
      rejected for coming before the day. */
  lemma UntroubledCallsSucceed(calls: seq<Call>, now: int, steps: seq<Step>, i: nat, n: int)
    requires i < |calls| && calls[i].day == On(n) && Untroubled(steps, i)
    ensures var w := Run(calls, Init(calls, now), steps);
      var pc := w.pcs[i];
      && (Sends(steps, i) >= 4 ==> pc.Done?)
      && (pc.Done? && pc.at < Leaves(n) ==>
            (n in w.first && pc.out == Got(w.first[n])) || (pc.out.Rejected? && pc.at < n * DAY_NANOS))
  {
    InitIsGood(calls, now);
    UntroubledRun(calls, Init(calls, now), steps, i);
    RunIsGood(calls, Init(calls, now), steps);
    var w := Run(calls, Init(calls, now), steps);
    assert PcGood(w, calls[i], w.pcs[i]);
  }

  // ----- agreement

  predicate InTime(pc: Pc, n: int) { pc.Done? && pc.out.Got? && pc.at < Leaves(n) }

  /** Under every schedule and every pattern of failures, two successful calls for a day that complete before the day
      leaves the window return one salt; and until then every pod's cached salt is the stored one. */
  lemma SaltsAgree(calls: seq<Call>, now: int, steps: seq<Step>, i: nat, j: nat, n: int, pod: nat)
    requires i < |calls| && j < |calls| && calls[i].day == calls[j].day == On(n)
    ensures var w := Run(calls, Init(calls, now), steps);
      (InTime(w.pcs[i], n) && InTime(w.pcs[j], n) ==> w.pcs[i].out == w.pcs[j].out) &&
      (w.now < Leaves(n) && n in CacheOf(w, pod) ==> n in w.keys && CacheOf(w, pod)[n] == w.keys[n].salt)
  {
    InitIsGood(calls, now);
    RunIsGood(calls, Init(calls, now), steps);
    var w := Run(calls, Init(calls, now), steps);
    assert PcGood(w, calls[i], w.pcs[i]) && PcGood(w, calls[j], w.pcs[j]) && KeyGood(w, n) && CacheGood(w, pod, n);
  }

  /** Two calls for day n end with different salts, the later of them at instant `at`. */
  ghost predicate MintsTwo(calls: seq<Call>, now: int, steps: seq<Step>, n: int, at: int, s: string, t: string) {
    |calls| == 2 && calls[0].day == calls[1].day == On(n)
    && Run(calls, Init(calls, now), steps).pcs == [Done(Got(s), now), Done(Got(t), at)] && now <= at
  }

  /** The bound is needed at every later instant: of two calls that start on the day itself, one that completes when
      the day has left the window can mint a second salt. */
  lemma LateCallsCanDisagree(n: int, at: int, s: string, t: string)
    requires at >= Leaves(n)
    ensures exists calls, now, steps :: MintsTwo(calls, now, steps, n, at, s, t)
  {
    hide Next, Run;
    var now := n * DAY;
    var calls := [Call(0, On(n), s), Call(1, On(n), t)];
    var a, b := Send(0, Healthy), Send(1, Healthy);
    var late := [a] + ([Tick(at - now)] + ([b] + []));
    var steps := [a] + ([a] + ([b] + ([b] + late)));
    BothMiss(calls, n);
    FourSteps(calls, Init(calls, now), a, b, late);
    BothMint(calls, Next(calls, Next(calls, Next(calls, Next(calls, Init(calls, now), a), a), b), b), n, at, s, t);
    assert MintsTwo(calls, now, steps, n, at, s, t);
  }

  predicate GotBy(c: Call, pc: Pc, n: int, at: int) { c.day == On(n) && pc.Done? && pc.out.Got? && pc.at <= at }

  ghost predicate RunAgrees(calls: seq<Call>, now: int, steps: seq<Step>, n: int, at: int) {
    var pcs := Run(calls, Init(calls, now), steps).pcs;
    forall i, j :: 0 <= i < |calls| && 0 <= j < |calls| ==>
      GotBy(calls[i], pcs[i], n, at) && GotBy(calls[j], pcs[j], n, at) ==> pcs[i].out == pcs[j].out
  }

  /** Whatever the calls, the schedule and the failures, all that have a salt of day n by the instant have the same one,
      if and only if that instant lies before the day leaves the window. */
  lemma AgreementEndsExactly(n: int, at: int)
    ensures (forall calls, now, steps :: RunAgrees(calls, now, steps, n, at)) <==> at < Leaves(n)
  {
    hide Run;
    if at < Leaves(n) {
      forall calls, now, steps
        ensures RunAgrees(calls, now, steps, n, at)
      {
        RunsAgreeInTime(calls, now, steps, n, at);
      }
    } else {
      LateCallsCanDisagree(n, at, "s", "t");
      var calls, now, steps :| MintsTwo(calls, now, steps, n, at, "s", "t");
      var pcs := Run(calls, Init(calls, now), steps).pcs;
      assert GotBy(calls[0], pcs[0], n, at) && GotBy(calls[1], pcs[1], n, at);
      assert "s"[0] != "t"[0];
      assert !RunAgrees(calls, now, steps, n, at);
    }
  }

  lemma RunsAgreeInTime(calls: seq<Call>, now: int, steps: seq<Step>, n: int, at: int)
    requires at < Leaves(n)
    ensures RunAgrees(calls, now, steps, n, at)
  {
    hide Run;
    var pcs := Run(calls, Init(calls, now), steps).pcs;
    forall i, j | 0 <= i < |calls| && 0 <= j < |calls|
      ensures GotBy(calls[i], pcs[i], n, at) && GotBy(calls[j], pcs[j], n, at) ==> pcs[i].out == pcs[j].out
    {
      if calls[i].day == On(n) && calls[j].day == On(n) { SaltsAgree(calls, now, steps, i, j, n, 0); }
    }
  }

  lemma FourSteps(calls: seq<Call>, w: World, a: Step, b: Step, rest: seq<Step>)
    requires |w.pcs| == |calls|
    ensures Run(calls, w, [a] + ([a] + ([b] + ([b] + rest)))) ==
      Run(calls, Next(calls, Next(calls, Next(calls, Next(calls, w, a), a), b), b), rest)
  {
    hide Next, Run;
    var w2 := Next(calls, Next(calls, w, a), a);
    StepOnce(calls, w, a, [a] + ([b] + ([b] + rest)));
    StepOnce(calls, Next(calls, w, a), a, [b] + ([b] + rest));
    StepOnce(calls, w2, b, [b] + rest);
    StepOnce(calls, Next(calls, w2, b), b, rest);
  }

  lemma StepOnce(calls: seq<Call>, w: World, step: Step, rest: seq<Step>)
    requires |w.pcs| == |calls|
    ensures Run(calls, w, [step] + rest) == Run(calls, Next(calls, w, step), rest)
  {
    assert ([step] + rest)[1..] == rest;
  }

  /** Both calls find no key. */
  lemma BothMiss(calls: seq<Call>, n: int)
    requires |calls| == 2 && calls[0].day == calls[1].day == On(n)
    ensures var a, b := Send(0, Healthy), Send(1, Healthy);
      var w := Next(calls, Next(calls, Next(calls, Next(calls, Init(calls, n * DAY), a), a), b), b);
      w.pcs == [AtMint(MAX_TTL), AtMint(MAX_TTL)] && w.keys == map[] && w.now == n * DAY
  {
    var a, b := Send(0, Healthy), Send(1, Healthy);
    assert SaltTTLFor(On(n), n * DAY) == Some(MAX_TTL);
    hide SaltTTLFor, Leaves;
    var w1 := Next(calls, Init(calls, n * DAY), a);
    assert w1.pcs == [AtGet(MAX_TTL), AtStart] && w1.keys == map[] && n !in CacheOf(w1, calls[1].pod);
    var w2 := Next(calls, w1, a);
    assert w2.pcs == [AtMint(MAX_TTL), AtStart] && w2.keys == map[] && n !in CacheOf(w2, calls[1].pod);
    var w3 := Next(calls, w2, b);
    assert w3.pcs == [AtMint(MAX_TTL), AtGet(MAX_TTL)] && w3.keys == map[];
  }

  /** The first mints at once, the second when that key has expired. */
  lemma BothMint(calls: seq<Call>, w: World, n: int, at: int, s: string, t: string)
    requires |calls| == 2 && calls[0].day == calls[1].day == On(n) && calls[0].minted == s && calls[1].minted == t
    requires w.pcs == [AtMint(MAX_TTL), AtMint(MAX_TTL)] && w.keys == map[] && w.now == n * DAY
    requires at >= Leaves(n)
    ensures Run(calls, w, [Send(0, Healthy)] + ([Tick(at - n * DAY)] + ([Send(1, Healthy)] + []))).pcs ==
      [Done(Got(s), n * DAY), Done(Got(t), at)]
  {
    hide Pruned;
    var now := n * DAY;
    var w1 := Next(calls, w, Send(0, Healthy));
    assert w1.pcs == [Done(Got(s), now), AtMint(MAX_TTL)] && w1.keys == map[n := Entry(s, now + MAX_TTL)];
    assert now + MAX_TTL == Leaves(n);
    var w2 := Next(calls, w1, Tick(at - now));
    var w3 := Next(calls, w2, Send(1, Healthy));
    assert w3.pcs == [Done(Got(s), now), Done(Got(t), at)];
    StepOnce(calls, w, Send(0, Healthy), [Tick(at - now)] + ([Send(1, Healthy)] + []));
    StepOnce(calls, w1, Tick(at - now), [Send(1, Healthy)] + []);
    StepOnce(calls, w2, Send(1, Healthy), []);
  }
}
