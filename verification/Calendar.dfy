/** UTC days and months on the civil calendar. Day 0 is 1970-01-01, month 0 is January 1970. */
module Calendar {

  const DAY := 24 * 3600 * 1_000_000_000

  function DayOf(t: int): int { t / DAY }

  function StartOfDay(t: int): int { DayOf(t) * DAY }

  predicate Leap(year: int) { year % 4 == 0 && (year % 100 != 0 || year % 400 == 0) }

  /** Length of month m counted from January 1970. */
  function MonthLength(m: int): (n: int)
    ensures 28 <= n <= 31
  {
    var year, month := 1970 + m / 12, m % 12;
    if month == 1 then (if Leap(year) then 29 else 28)
    else if month in {3, 5, 8, 10} then 30
    else 31
  }

  /** Day on which month m begins. */
  function MonthStart(m: int): int
    decreases if m < 0 then -m else m
  {
    if m == 0 then 0
    else if m > 0 then MonthStart(m - 1) + MonthLength(m - 1)
    else MonthStart(m + 1) - MonthLength(m)
  }

  lemma MonthStep(m: int)
    ensures MonthStart(m + 1) == MonthStart(m) + MonthLength(m)
  {
  }

  lemma {:induction false} MonthStartMonotone(a: int, b: int)
    requires a <= b
    ensures MonthStart(a) + 28 * (b - a) <= MonthStart(b)
    decreases b - a
  {
    if a < b {
      MonthStartMonotone(a, b - 1);
      MonthStep(b - 1);
    }
  }

  /** Days before the March-based year y, but for a constant. */
  function YearDays(y: int): int { 365 * y + y / 4 - y / 100 + y / 400 }

  /** First day of a month of the Gregorian calendar in closed form: years begin in March, so that a leap day is
      the last day of its year. */
  function CivilFirst(year: int, month: int): int {
    YearDays(if month <= 2 then year - 1 else year) + (153 * ((month + 9) % 12) + 2) / 5 - 719468
  }

  lemma NextQuotient(y: int)
    ensures y / 4 == (y - 1) / 4 + if y % 4 == 0 then 1 else 0
    ensures y / 100 == (y - 1) / 100 + if y % 100 == 0 then 1 else 0
    ensures y / 400 == (y - 1) / 400 + if y % 400 == 0 then 1 else 0
  {
  }

  lemma Centuries(y: int)
    ensures y % 400 == 0 ==> y % 100 == 0
  {
    var c, h := y / 400, y / 100;
    if y % 400 == 0 { assert y % 100 == 100 * (4 * c - h); }
  }

  lemma Quarters(y: int)
    ensures y % 100 == 0 ==> y % 4 == 0
  {
    var h, k := y / 100, y / 4;
    if y % 100 == 0 { assert y % 4 == 4 * (25 * h - k); }
  }

  /** A year has a leap day exactly when the closed form counts one. */
  lemma LeapDay(y: int)
    ensures YearDays(y) == YearDays(y - 1) + if Leap(y) then 366 else 365
  {
    NextQuotient(y);
    Centuries(y);
    Quarters(y);
  }

  /** From one month's first day to the next one's. */
  lemma CivilStep(year: int, k: int)
    requires 0 <= k < 12
    ensures (if k == 11 then CivilFirst(year + 1, 1) else CivilFirst(year, k + 2)) ==
      CivilFirst(year, k + 1) +
      if k == 1 then (if Leap(year) then 29 else 28) else if k in {3, 5, 8, 10} then 30 else 31
  {
    LeapDay(year);
    hide YearDays, Leap;
  }

  lemma NextMonth(m: int)
    ensures (m + 1) / 12 == m / 12 + (if m % 12 == 11 then 1 else 0)
    ensures (m + 1) % 12 == if m % 12 == 11 then 0 else m % 12 + 1
  {
  }

  /** The same for months counted from January 1970. */
  function FirstOf(m: int): int { CivilFirst(1970 + m / 12, m % 12 + 1) }

  lemma NextFirst(m: int)
    ensures FirstOf(m + 1) == FirstOf(m) + MonthLength(m)
  {
    hide CivilFirst, Leap;
    NextMonth(m);
    CivilStep(1970 + m / 12, m % 12);
  }

  lemma EpochIsFirst()
    ensures FirstOf(0) == 0
  {
  }

  /** Month m begins on the first of its month on the civil calendar, for all months before and after 1970. */
  lemma {:induction false} MonthStartIsCivil(m: int)
    ensures MonthStart(m) == FirstOf(m)
    decreases if m < 0 then -m else m
  {
    EpochIsFirst();
    hide FirstOf, MonthLength;
    if m > 0 {
      MonthStartIsCivil(m - 1);
      NextFirst(m - 1);
    } else if m < 0 {
      MonthStartIsCivil(m + 1);
      NextFirst(m);
    }
  }

  /** The month of a day on the civil calendar: the one whose first day is the last first-of-month not after it. */
  lemma MonthOfIsCivil(day: int, m: int)
    ensures MonthOf(day) == m <==>
      CivilFirst(1970 + m / 12, m % 12 + 1) <= day < CivilFirst(1970 + (m + 1) / 12, (m + 1) % 12 + 1)
  {
    hide CivilFirst;
    MonthStartIsCivil(m);
    MonthStartIsCivil(m + 1);
    if MonthStart(m) <= day < MonthStart(m + 1) { MonthOfIs(day, m); }
  }

  /** The month that holds a day, searched from month m. */
  function MonthFrom(day: int, m: int): (r: int)
    ensures MonthStart(r) <= day < MonthStart(r + 1)
    decreases if day < MonthStart(m) then MonthStart(m) - day else day - MonthStart(m),
              if day < MonthStart(m) then 1 else 0
  {
    MonthStep(m);
    MonthStep(m - 1);
    if day < MonthStart(m) then
      if MonthStart(m - 1) <= day then m - 1 else MonthFrom(day, m - 1)
    else if day < MonthStart(m + 1) then m
    else MonthFrom(day, m + 1)
  }

  function MonthOf(day: int): (m: int)
    ensures MonthStart(m) <= day < MonthStart(m + 1)
  {
    MonthFrom(day, 0)
  }

  /** Months are the floor of days. */
  lemma MonthOfIs(day: int, m: int)
    requires MonthStart(m) <= day < MonthStart(m + 1)
    ensures MonthOf(day) == m
  {
    var r := MonthOf(day);
    if r < m { MonthStartMonotone(r + 1, m); }
    if m < r { MonthStartMonotone(m + 1, r); }
  }

  lemma MonthOfMonotone(a: int, b: int)
    requires a <= b
    ensures MonthOf(a) <= MonthOf(b)
  {
    if MonthOf(b) < MonthOf(a) { MonthStartMonotone(MonthOf(b) + 1, MonthOf(a)); }
  }
}
