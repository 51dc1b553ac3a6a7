/** When a request window [from, to) covers whole rollup days. Instants are nanoseconds. */
module WindowGuard {
  import opened Calendar

  /** The inclusive day bounds the rollup is filtered with. */
  function RollupDayBounds(from: int, to: int): (int, int) { (DayOf(from), DayOf(to - 1)) }

  predicate RollupWindowAligned(from: int, to: int, now: int) {
    if from != StartOfDay(from) then false
    else if to == StartOfDay(to) then true
    else !(to < now)
  }

  predicate InDays(t: int, from: int, to: int) {
    var (lo, hi) := RollupDayBounds(from, to);
    lo <= DayOf(t) <= hi
  }

  /** The day filter selects exactly the window's instants among those before `now`. */
  ghost predicate DaysAreWindow(from: int, to: int, now: int) {
    forall t :: t < now ==> (InDays(t, from, to) <==> from <= t < to)
  }

  lemma AlignedIsWindow(from: int, to: int, now: int, t: int)
    requires RollupWindowAligned(from, to, now) && t < now
    ensures InDays(t, from, to) <==> from <= t < to
  {
    hide StartOfDay, DayOf;
    FromMidnight(from, t);
    DayBefore(to, t);
    DayBefore(to, now);
  }

  lemma FromMidnight(from: int, t: int)
    ensures from == StartOfDay(from) ==> (DayOf(from) <= DayOf(t) <==> from <= t)
  {
  }

  /** Up to the last instant before `to` is before `to`, at midnight, and also within the day once `to` is not past. */
  lemma DayBefore(to: int, t: int)
    ensures to == StartOfDay(to) ==> (DayOf(t) <= DayOf(to - 1) <==> t < to)
    ensures t < to ==> DayOf(t) <= DayOf(to - 1)
  {
  }

  /** The guard is exact. */
  lemma GuardIsExact(from: int, to: int, now: int)
    requires from < to && from <= now
    ensures RollupWindowAligned(from, to, now) <==> DaysAreWindow(from, to, now)
  {
    if RollupWindowAligned(from, to, now) {
      forall t | t < now ensures InDays(t, from, to) <==> from <= t < to { AlignedIsWindow(from, to, now, t); }
    } else if from != StartOfDay(from) {
      assert InDays(StartOfDay(from), from, to);
    } else {
      assert InDays(to, from, to);
    }
  }

  /** lastNDays in UTC: from midnight n - 1 days ago to now. */
  function LastNDays(now: int, n: int): (int, int) { (StartOfDay(now - (n - 1) * DAY), now) }

  const HOUR := DAY / 24

  function LastNHours(now: int, n: int): (int, int) { (now - n * HOUR, now) }

  datatype Preset =
    | Last1Hour | Last6Hours | Last24Hours
    | Last7Days | Last14Days | Last30Days | Last90Days | Last180Days | Last365Days
    | Unknown

  /** An absolute range, where both ends are given. */
  datatype Range = Absent | Given(from: int, to: int)

  predicate Valid(r: Range) { r.Given? && r.from < r.to }

  function Resolve(p: Preset, fallback: Range, now: int): (int, int) {
    match p
    case Last1Hour => LastNHours(now, 1)
    case Last6Hours => LastNHours(now, 6)
    case Last24Hours => LastNHours(now, 24)
    case Last7Days => LastNDays(now, 7)
    case Last14Days => LastNDays(now, 14)
    case Last30Days => LastNDays(now, 30)
    case Last90Days => LastNDays(now, 90)
    case Last180Days => LastNDays(now, 180)
    case Last365Days => LastNDays(now, 365)
    case Unknown => if Valid(fallback) then (fallback.from, fallback.to) else LastNDays(now, 30)
  }

  /** The days a preset spans; None for hours and for a fallback that is used. */
  function DaysOf(p: Preset, fallback: Range): (n: int)
    ensures n >= 0
  {
    match p
    case Last7Days => 7
    case Last14Days => 14
    case Last30Days => 30
    case Last90Days => 90
    case Last180Days => 180
    case Last365Days => 365
    case Unknown => if Valid(fallback) then 0 else 30
    case _ => 0
  }

  /** What each preset asks for, in nanoseconds and days; a valid fallback is taken as it is. */
  lemma PresetLengths(fallback: Range, now: int)
    ensures Resolve(Last1Hour, fallback, now) == (now - 3_600_000_000_000, now)
    ensures Resolve(Last6Hours, fallback, now) == (now - 21_600_000_000_000, now)
    ensures Resolve(Last24Hours, fallback, now) == (now - 86_400_000_000_000, now)
    ensures DaysOf(Last7Days, fallback) == 7 && DaysOf(Last14Days, fallback) == 14 && DaysOf(Last30Days, fallback) == 30
    ensures DaysOf(Last90Days, fallback) == 90 && DaysOf(Last180Days, fallback) == 180
    ensures DaysOf(Last365Days, fallback) == 365
    ensures fallback.Given? && fallback.from < fallback.to ==>
      Resolve(Unknown, fallback, now) == (fallback.from, fallback.to)
    ensures fallback.Absent? || fallback.to <= fallback.from ==>
      Resolve(Unknown, fallback, now) == Resolve(Last30Days, Absent, now)
  {
  }

  /** Every UTC day preset is eligible, spans exactly its number of days, and ends today. */
  lemma PresetsAreAligned(p: Preset, fallback: Range, now: int)
    requires DaysOf(p, fallback) > 0
    ensures var (from, to) := Resolve(p, fallback, now);
            && RollupWindowAligned(from, to, now)
            && DayOf(now) - DayOf(from) + 1 == DaysOf(p, fallback)
            && to - from < DaysOf(p, fallback) * DAY && from <= now
  {
    hide RollupWindowAligned, DayOf;
    LastDaysAligned(now, DaysOf(p, fallback));
  }

  lemma LastDaysAligned(now: int, n: int)
    requires n > 0
    ensures var (from, to) := LastNDays(now, n);
            && RollupWindowAligned(from, to, now)
            && DayOf(now) - DayOf(from) + 1 == n && to - from < n * DAY && from <= now
  {
    var shifted := now - (n - 1) * DAY;
    assert DayOf(shifted) == DayOf(now) - (n - 1);
    assert DayOf(StartOfDay(shifted)) == DayOf(shifted);
    assert now == StartOfDay(now) + now % DAY;
  }

  /** Any other window that a dashboard resolves, in hours or from a valid fallback, is eligible exactly when it begins
      at midnight and does not end within a past day. */
  lemma OtherWindowsAlignedExactly(p: Preset, fallback: Range, now: int)
    requires DaysOf(p, fallback) == 0
    ensures var (from, to) := Resolve(p, fallback, now);
            && from < to
            && (RollupWindowAligned(from, to, now) <==>
                  from % DAY == 0 && (to % DAY == 0 || now <= to))
            && (p != Unknown ==> to == now)
  {
    var (from, to) := Resolve(p, fallback, now);
    assert from == StartOfDay(from) + from % DAY && to == StartOfDay(to) + to % DAY;
  }
}
