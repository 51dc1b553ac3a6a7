/** The daily salt: its lifetime, its in-process cache, and one call for it as a little machine of Redis commands. */
module Salt {
  import opened Basics
  import opened Breakdowns

  const DAY := 24 * 60 * 60 * 1_000_000_000
  const MAX_TTL := 2 * DAY

  /** A UTC calendar day by its number since 1970, or a text that is not a day. */
  datatype Day = Malformed(text: string) | On(n: int)

  function DayOf(t: int): int { t / DAY }

  /** The days an event may be attributed to: today and yesterday. */
  predicate InWindow(n: int, now: int) { n == DayOf(now) || n == DayOf(now) - 1 }

  /** The instant day n leaves the window. */
  function Leaves(n: int): int { (n + 2) * DAY }

  function SaltTTLFor(day: Day, now: int): Option<int> {
    match day
    case Malformed(_) => None
    case On(n) => var ttl := Leaves(n) - now; if ttl <= 0 || ttl > MAX_TTL then None else Some(ttl)
  }

  /** The accepted window and the salt's lifetime are one fact: a salt can be had exactly for the days in the
      window, and from the instant that is asked about it lives until its day leaves the window. */
  lemma LifetimeIsTheWindow(n: int, now: int)
    ensures SaltTTLFor(On(n), now).Some? <==> InWindow(n, now)
    ensures InWindow(n, now) <==> Leaves(n) - 2 * DAY <= now < Leaves(n)
    ensures SaltTTLFor(On(n), now).Some? ==> now + SaltTTLFor(On(n), now).value == Leaves(n)
  {
    var today := DayOf(now);
    assert today * DAY <= now < (today + 1) * DAY;
  }

  // ----- the cache

  function Pruned(salts: map<int, string>, now: int): map<int, string> {
    map n | n in salts && InWindow(n, now) :: salts[n]
  }

  function CacheSalt(salts: map<int, string>, n: int, salt: string, now: int): map<int, string> {
    Pruned(salts[n := salt], now)
  }

  // ----- one call

  datatype Entry = Entry(salt: string, expires: int)

  datatype Outcome = Got(salt: string) | Rejected | Failed

  datatype Pc = AtStart | AtGet(ttl: int) | AtMint(ttl: int) | AtReread | Done(out: Outcome, at: int)

  /** Denied: the command had no effect. ReplyLost: it had its effect, but the call sees an error. */
  datatype Fate = Healthy | Denied | ReplyLost

  /** What a call sees and changes: its place, its pod's cache, and the day's key. */
  datatype View = View(pc: Pc, cache: map<int, string>, key: Option<Entry>)

  predicate Live(key: Option<Entry>, now: int) { key.Some? && now < key.value.expires }

  function Answer(v: View, n: int, now: int): View
    requires v.key.Some?
  {
    var salt := v.key.value.salt;
    v.(pc := Done(Got(salt), now), cache := CacheSalt(v.cache, n, salt, now))
  }

  /** The next command of a call for day `day` that would mint `minted`. */
  function StepCall(day: Day, minted: string, v: View, now: int, fate: Fate): View {
    match v.pc
    case AtStart =>
      (match SaltTTLFor(day, now)
       case None => v.(pc := Done(Rejected, now))
       case Some(ttl) => if day.n in v.cache then v.(pc := Done(Got(v.cache[day.n]), now)) else v.(pc := AtGet(ttl)))
    case AtGet(ttl) =>
      if fate != Healthy || day.Malformed? then v.(pc := Done(Failed, now))
      else if Live(v.key, now) then Answer(v, day.n, now)
      else v.(pc := AtMint(ttl))
    case AtMint(ttl) =>
      if fate == Denied || day.Malformed? then v.(pc := Done(Failed, now))
      else if Live(v.key, now) then v.(pc := if fate == Healthy then AtReread else Done(Failed, now))
      else
        var v' := v.(key := Some(Entry(minted, now + ttl)));
        if fate == Healthy then Answer(v', day.n, now) else v'.(pc := Done(Failed, now))
    case AtReread =>
      if fate != Healthy || day.Malformed? || !Live(v.key, now) then v.(pc := Done(Failed, now))
      else Answer(v, day.n, now)
    case Done(_, _) => v
  }

  /** A call's third and fourth commands. */
  function LastSteps(day: Day, minted: string, v: View, t2: int, t3: int, f2: Fate, f3: Fate): View {
    StepCall(day, minted, StepCall(day, minted, v, t2, f2), t3, f3)
  }

  lemma DoneStays(day: Day, minted: string, t2: int, t3: int, f2: Fate, f3: Fate)
    ensures forall v: View :: v.pc.Done? ==> LastSteps(day, minted, v, t2, t3, f2, f3) == v
  {
  }

  /** A minted key lives to the instant its day leaves the window, plus the time the call took between computing the
      lifetime and writing the key: it outlives its day exactly when that took any time. */
  lemma MintedKeyExpiry(day: Day, started: int, at: int)
    requires SaltTTLFor(day, started).Some? && started <= at
    ensures day.On?
    ensures var expires := at + SaltTTLFor(day, started).value;
            expires == Leaves(day.n) + (at - started) && (expires > Leaves(day.n) <==> at > started)
  {
  }

  // ----- what an undisturbed call gives, in plain terms

  /** A day in nanoseconds, written out. */
  const DAY_NANOS := 86_400_000_000_000

  /** A call with nothing in between, from its start at t0 to its commands at t1, t2 and t3. */
  function Solo(day: Day, minted: string, v: View, t0: int, t1: int, t2: int, t3: int, f1: Fate, f2: Fate,
                f3: Fate): View {
    LastSteps(day, minted, StepCall(day, minted, StepCall(day, minted, v, t0, Healthy), t1, f1), t2, t3, f2, f3)
  }

  /** Of today or yesterday, and every command answered: the call returns the cached salt, else the stored one, else the
      one it mints; and that salt is then cached, and stored unless it came from the cache. */
  lemma HealthyCallSucceeds(n: int, minted: string, cache: map<int, string>, key: Option<Entry>,
                            t0: int, t1: int, t2: int, t3: int)
    requires n * DAY_NANOS <= t0 <= t1 <= t2 <= t3 < (n + 2) * DAY_NANOS
    ensures var v := Solo(On(n), minted, View(AtStart, cache, key), t0, t1, t2, t3, Healthy, Healthy, Healthy);
      var salt := if n in cache then cache[n] else if key.Some? && t1 < key.value.expires then key.value.salt
        else minted;
      && v.pc.Done? && v.pc.out == Got(salt)
      && n in v.cache && v.cache[n] == salt
      && (if n in cache then v.key == key else v.key.Some? && v.key.value.salt == salt && t1 < v.key.value.expires)
  {
    LifetimeIsTheWindow(n, t0);
    LifetimeIsTheWindow(n, t1);
    LifetimeIsTheWindow(n, t2);
    DoneStays(On(n), minted, t2, t3, Healthy, Healthy);
  }

  /** A call is rejected exactly for what is no day, today or yesterday; and it fails exactly when nothing is cached and
      the GET, or the SETNX that a missing key makes it send, does not come back. */
  lemma RefusedExactly(day: Day, minted: string, cache: map<int, string>, key: Option<Entry>,
                       t0: int, t1: int, t2: int, t3: int, f1: Fate, f2: Fate, f3: Fate)
    requires t0 <= t1 <= t2 <= t3
    ensures var v := Solo(day, minted, View(AtStart, cache, key), t0, t1, t2, t3, f1, f2, f3);
      var accepted := day.On? && day.n * DAY_NANOS <= t0 < (day.n + 2) * DAY_NANOS;
      && v.pc.Done?
      && (v.pc.out.Rejected? <==> !accepted)
      && (v.pc.out.Failed? <==>
            accepted && day.n !in cache &&
            (f1 != Healthy || (f2 != Healthy && !(key.Some? && t1 < key.value.expires))))
  {
    hide CacheSalt, InWindow;
    if day.On? { LifetimeIsTheWindow(day.n, t0); }
    DoneStays(day, minted, t2, t3, f2, f3);
  }

  /** A re-read after a lost mint race: the other pod's salt is returned and cached, unless the command fails or the
      key is gone by then. */
  lemma RereadOutcome(n: int, minted: string, v: View, now: int, fate: Fate)
    requires v.pc.AtReread? && n * DAY_NANOS <= now < (n + 2) * DAY_NANOS
    ensures var after := StepCall(On(n), minted, v, now, fate);
      if fate == Healthy && v.key.Some? && now < v.key.value.expires
      then after.pc == Done(Got(v.key.value.salt), now) && n in after.cache && after.cache[n] == v.key.value.salt
      else after.pc == Done(Failed, now)
  {
    LifetimeIsTheWindow(n, now);
  }

  // ----- what is hashed

  /** The hashed message: project, IP and user agent with a NUL in between. */
  function Message(project: string, ip: string, ua: string): string { project + NUL + ip + NUL + ua }

  /** The message names its fields: only the last may hold a NUL. */
  lemma MessageInjective(p: string, ip: string, ua: string, p': string, ip': string, ua': string)
    requires '\0' !in p && '\0' !in ip && '\0' !in p' && '\0' !in ip'
    requires Message(p, ip, ua) == Message(p', ip', ua')
    ensures p == p' && ip == ip' && ua == ua'
  {
    assert Message(p, ip, ua) == p + NUL + (ip + NUL + ua) && Message(p', ip', ua') == p' + NUL + (ip' + NUL + ua');
    SplitFirst(p, ip + NUL + ua, p', ip' + NUL + ua');
    SplitFirst(ip, ua, ip', ua');
  }

  // ----- the resolver

  class Redis {
    var keys: map<int, Entry>

    constructor ()
      ensures keys == map[]
    {
      keys := map[];
    }
  }

  class Resolver {
    var salts: map<int, string>

    constructor ()
      ensures salts == map[]
    {
      salts := map[];
    }

    /** After this only the days in the window are cached. */
    method Cache(n: int, salt: string, now: int)
      modifies this
      ensures salts == CacheSalt(old(salts), n, salt, now)
      ensures forall d :: d in salts ==> InWindow(d, now)
    {
      salts := salts[n := salt];
      ghost var all := salts;
      var todo := salts.Keys;
      while todo != {}
        invariant todo <= all.Keys
        invariant salts == map d | d in all && (d in todo || InWindow(d, now)) :: all[d]
      {
        assert (forall d :: d !in todo) ==> todo == {};
        var d :| d in todo;
        todo := todo - {d};
        if !InWindow(d, now) { salts := salts - {d}; }
      }
    }

    ghost function ViewOf(rdb: Redis, day: Day, pc: Pc): View
      reads this, rdb
    {
      View(pc, salts, if day.On? && day.n in rdb.keys then Some(rdb.keys[day.n]) else None)
    }

    /** One call with nothing in between: it starts at t0 and sends its commands at t1, t2 and t3. */
    method SaltForDay(rdb: Redis, day: Day, minted: string, t0: int, t1: int, t2: int, t3: int, f1: Fate, f2: Fate,
                      f3: Fate)
      returns (out: Outcome)
      modifies this, rdb
      ensures var v4 := Solo(day, minted, old(ViewOf(rdb, day, AtStart)), t0, t1, t2, t3, f1, f2, f3);
              v4.pc.Done? && out == v4.pc.out && ViewOf(rdb, day, v4.pc) == v4
      ensures forall d :: d in rdb.keys && day != On(d) ==> d in old(rdb.keys) && rdb.keys[d] == old(rdb.keys[d])
      ensures forall d :: d in old(rdb.keys) ==> d in rdb.keys
    {
      hide CacheSalt, InWindow, LastSteps;
      DoneStays(day, minted, t2, t3, f2, f3);
      var ttl := SaltTTLFor(day, t0);
      if ttl == None { return Rejected; }
      var n := day.n;
      if n in salts { return Got(salts[n]); }
      if f1 != Healthy { return Failed; }
      if n in rdb.keys && t1 < rdb.keys[n].expires {
        out := Got(rdb.keys[n].salt);
        Cache(n, rdb.keys[n].salt, t1);
        return;
      }
      out := MintSalt(rdb, n, ttl.value, minted, t2, t3, f2, f3);
    }

    /** SETNX of the minted salt, and the re-read of another pod's when it lost. */
    method MintSalt(rdb: Redis, n: int, ttl: int, minted: string, t2: int, t3: int, f2: Fate, f3: Fate)
      returns (out: Outcome)
      modifies this, rdb
      ensures var v4 := LastSteps(On(n), minted, old(ViewOf(rdb, On(n), AtMint(ttl))), t2, t3, f2, f3);
              v4.pc.Done? && out == v4.pc.out && ViewOf(rdb, On(n), v4.pc) == v4
      ensures forall d :: d in rdb.keys && d != n ==> d in old(rdb.keys) && rdb.keys[d] == old(rdb.keys[d])
      ensures forall d :: d in old(rdb.keys) ==> d in rdb.keys
    {
      hide CacheSalt, InWindow;
      if f2 == Denied { return Failed; }
      var taken := n in rdb.keys && t2 < rdb.keys[n].expires;
      if !taken { rdb.keys := rdb.keys[n := Entry(minted, t2 + ttl)]; }
      if f2 == ReplyLost { return Failed; }
      if !taken {
        Cache(n, minted, t2);
        return Got(minted);
      }
      if f3 != Healthy || rdb.keys[n].expires <= t3 { return Failed; }
      out := Got(rdb.keys[n].salt);
      Cache(n, rdb.keys[n].salt, t3);
    }
  }
}
