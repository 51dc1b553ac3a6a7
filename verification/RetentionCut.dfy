/** Where an organisation's deletes stop. Instants are nanoseconds since 1970 UTC. */
module RetentionCut {
  import opened Basics
  import opened Calendar

  const MAX_DURATION := 0x7fff_ffff_ffff_ffff
  const MIN_DURATION := -0x8000_0000_0000_0000

  /** Differences of Go times saturate at the range of a Duration. */
  function Saturate(d: int): int {
    if d > MAX_DURATION then MAX_DURATION else if d < MIN_DURATION then MIN_DURATION else d
  }

  /** Whole days, rounded toward zero as Go divides. */
  function WholeDays(d: int): int { if d < 0 then -(-d / DAY) else d / DAY }

  function FirstOfMonth(t: int): int { MonthStart(MonthOf(DayOf(t))) * DAY }

  /** The first day of the month before the one that holds t. */
  function FirstOfPreviousMonth(t: int): int { MonthStart(MonthOf(DayOf(t)) - 1) * DAY }

  function Cut(now: int, days: int): Option<int> {
    if days <= 0 || days > WholeDays(Saturate(now)) then None
    else
      var at := FirstOfMonth(now - days * DAY);
      var latest := FirstOfPreviousMonth(now);
      if latest < at then Some(latest) else Some(at)
  }

  // ----- the same in months

  function CutMonth(day: int, days: int): int {
    var at, latest := MonthOf(day - days), MonthOf(day) - 1;
    if latest < at then latest else at
  }

  lemma DayShift(now: int, days: int)
    ensures DayOf(now - days * DAY) == DayOf(now) - days
  {
  }

  lemma Midnights(a: int, b: int)
    ensures a < b <==> a * DAY < b * DAY
  {
  }

  lemma MonthOrder(a: int, b: int)
    ensures a < b <==> MonthStart(a) < MonthStart(b)
  {
    if a < b { MonthStartMonotone(a, b); } else { MonthStartMonotone(b, a); }
  }

  lemma CutIsMonth(now: int, days: int)
    requires Cut(now, days).Some?
    ensures 0 < days <= DayOf(now)
    ensures Cut(now, days).value == MonthStart(CutMonth(DayOf(now), days)) * DAY
  {
    hide MonthStart;
    DayShift(now, days);
    var at, latest := MonthOf(DayOf(now) - days), MonthOf(DayOf(now)) - 1;
    Midnights(MonthStart(latest), MonthStart(at));
    MonthOrder(latest, at);
  }

  /** There is a cut exactly for a positive number of days that fit between 1970 and now, a clock past the range of a
      duration counting as its end. */
  lemma CutExistsExactly(now: int, days: int)
    ensures Cut(now, days).Some? <==>
      0 < days && days * 86_400_000_000_000 <= (if now > 0x7fff_ffff_ffff_ffff then 0x7fff_ffff_ffff_ffff else now)
  {
    hide FirstOfMonth, FirstOfPreviousMonth;
  }

  // ----- what the cut guarantees

  /** A cut is the first day of some month, lies at or before now - days, and never passes the
      first of the previous month. */
  lemma CutIsBounded(now: int, days: int)
    requires Cut(now, days).Some?
    ensures var r := Cut(now, days).value;
            && (exists m :: r == MonthStart(m) * DAY)
            && r <= now - days * DAY
            && r <= FirstOfPreviousMonth(now)
  {
    hide MonthStart;
    var m := MonthOf(DayOf(now - days * DAY));
    assert FirstOfMonth(now - days * DAY) == MonthStart(m) * DAY <= now - days * DAY;
    assert FirstOfPreviousMonth(now) == MonthStart(MonthOf(DayOf(now)) - 1) * DAY;
  }

  /** It is the latest such day: no other first of a month meets both bounds and is later. */
  lemma CutIsLatest(now: int, days: int, m: int)
    requires Cut(now, days).Some?
    requires MonthStart(m) * DAY <= now - days * DAY && MonthStart(m) * DAY <= FirstOfPreviousMonth(now)
    ensures MonthStart(m) * DAY <= Cut(now, days).value
  {
    var day := DayOf(now);
    CutIsMonth(now, days);
    DayShift(now, days);
    StartsByDay(MonthStart(m), now - days * DAY);
    hide MonthStart, Cut, MonthOf, DayOf, CutMonth, FirstOfPreviousMonth;
    LatestMonth(now, days, m);
  }

  lemma LatestMonth(now: int, days: int, m: int)
    requires MonthStart(m) <= DayOf(now) - days && MonthStart(m) * DAY <= FirstOfPreviousMonth(now)
    ensures MonthStart(m) * DAY <= MonthStart(CutMonth(DayOf(now), days)) * DAY
  {
    var day := DayOf(now);
    hide MonthStart, MonthOf, DayOf;
    MonthOfMonotone(MonthStart(m), day - days);
    MonthStep(m);
    MonthOfIs(MonthStart(m), m);
    Midnights(MonthStart(MonthOf(day) - 1), MonthStart(m));
    MonthOrder(MonthOf(day) - 1, m);
    MonthOrder(CutMonth(day, days), m);
    Midnights(MonthStart(CutMonth(day, days)), MonthStart(m));
  }

  lemma StartsByDay(day: int, t: int)
    requires day * DAY <= t
    ensures day <= DayOf(t)
  {
  }

  /** A cut lies before 1970 exactly while the clock is still in January 1970. */
  lemma CutIsAfterTheEpochExactly(now: int, days: int)
    requires Cut(now, days).Some?
    ensures Cut(now, days).value >= 0 <==> MonthOf(DayOf(now)) >= 1
  {
    var day := DayOf(now);
    CutIsMonth(now, days);
    MonthOfIs(0, 0);
    MonthOfMonotone(0, day - days);
    MonthOrder(CutMonth(day, days), 0);
    hide Cut, MonthOf;
    Midnights(MonthStart(CutMonth(day, days)), 0);
  }

  /** On 11 January 1970 a one-day policy cuts at 1 December 1969. */
  lemma JanuaryCutsBeforeTheEpoch()
    ensures Cut(10 * DAY, 1) == Some(MonthStart(-1) * DAY) && MonthStart(-1) == -31
  {
    MonthOfIs(10, 0);
    MonthOfIs(9, 0);
    assert MonthStart(1) == 31 && MonthStart(-1) == -31;
    assert DayOf(10 * DAY) == 10 && DayOf(10 * DAY - DAY) == 9;
  }

  /** As the clock advances a cut appears for good and never moves back. */
  lemma CutAdvances(now: int, later: int, days: int)
    requires now <= later && Cut(now, days).Some?
    ensures Cut(later, days).Some? && Cut(now, days).value <= Cut(later, days).value
  {
    hide Cut, DayOf, MonthStart;
    GuardAdvances(now, later, days);
    CutIsMonth(now, days);
    CutIsMonth(later, days);
    MonthOfMonotone(DayOf(now), DayOf(later));
    MonthOfMonotone(DayOf(now) - days, DayOf(later) - days);
    CutOrder(CutMonth(DayOf(now), days), CutMonth(DayOf(later), days));
  }

  lemma CutOrder(a: int, b: int)
    requires a <= b
    ensures MonthStart(a) * DAY <= MonthStart(b) * DAY
  {
    MonthStartMonotone(a, b);
    var x, y := MonthStart(a), MonthStart(b);
    hide MonthStart;
    assert x <= y;
    Midnights(y, x);
  }

  lemma GuardAdvances(now: int, later: int, days: int)
    requires now <= later && Cut(now, days).Some?
    ensures Cut(later, days).Some? && DayOf(now) <= DayOf(later)
  {
    hide FirstOfMonth, FirstOfPreviousMonth;
  }

  /** A longer retention never cuts later. */
  lemma LongerRetentionCutsEarlier(now: int, days: int, more: int)
    requires days <= more && Cut(now, days).Some? && Cut(now, more).Some?
    ensures Cut(now, more).value <= Cut(now, days).value
  {
    hide Cut, DayOf, MonthStart;
    CutIsMonth(now, days);
    CutIsMonth(now, more);
    MonthOfMonotone(DayOf(now) - more, DayOf(now) - days);
    CutOrder(CutMonth(DayOf(now), more), CutMonth(DayOf(now), days));
  }
}
