/** The stored form of a cookieless session, `sid|unix-millis`, and the time arithmetic
    around it. Instants are nanoseconds since 1970 UTC. */
module SessionState {
  import opened Basics

  const NANOS_PER_MILLI := 1_000_000
  const MIN_INT64 := -0x8000_0000_0000_0000
  const MAX_INT64 := 0x7fff_ffff_ffff_ffff
  const INACTIVITY := 30 * 60 * 1_000_000_000

  /** Instants whose UnixMilli is defined, i.e. fits an int64. */
  type Instant = t: int | MIN_INT64 * NANOS_PER_MILLI <= t < (MAX_INT64 + 1) * NANOS_PER_MILLI

  type Millis = n: int | MIN_INT64 <= n <= MAX_INT64

  function UnixMilli(t: Instant): Millis { t / NANOS_PER_MILLI }

  /** What a reader gets back for an instant that was stored: it loses the sub-millisecond part. */
  function Watermark(t: Instant): (w: Instant)
    ensures w <= t < w + NANOS_PER_MILLI
    ensures w == FromMillis(UnixMilli(t))
  {
    UnixMilli(t) * NANOS_PER_MILLI
  }

  function FromMillis(n: Millis): Instant { n * NANOS_PER_MILLI }

  lemma WatermarkKeepsOrder(a: Instant, b: Instant)
    requires a <= b
    ensures Watermark(a) <= Watermark(b)
    ensures WholeMillis(Watermark(b))
    ensures WholeMillis(a) ==> Watermark(a) == a
  {
  }

  predicate WholeMillis(t: Instant) { t % NANOS_PER_MILLI == 0 }

  /** The gap is symmetric: an event slightly before the last activity is the same session. */
  predicate Within(occur: Instant, last: Instant) {
    var gap := occur - last;
    (if gap < 0 then -gap else gap) <= INACTIVITY
  }

  // ----- decimal numbers (strconv.FormatInt / ParseInt in base 10)

  function Digits(n: nat): string {
    if n < 10 then [DigitChar(n)] else Digits(n / 10) + [DigitChar(n % 10)]
  }

  function DigitChar(d: nat): char
    requires d < 10
  {
    "0123456789"[d]
  }

  function FormatInt(n: int): string {
    if n < 0 then "-" + Digits(-n) else Digits(n)
  }

  function ParseDigits(s: string): Option<int> {
    if s == "" || !('0' <= s[|s| - 1] <= '9') then None
    else
      var d := s[|s| - 1] as int - '0' as int;
      if |s| == 1 then Some(d)
      else match ParseDigits(s[..|s| - 1])
        case None => None
        case Some(n) => Some(10 * n + d)
  }

  /** ParseInt(s, 10, 64): an optional sign, digits, and a value inside int64. */
  function ParseInt(s: string): Option<Millis> {
    var negative := s != "" && s[0] == '-';
    var unsigned := if s != "" && (s[0] == '-' || s[0] == '+') then s[1..] else s;
    match ParseDigits(unsigned)
    case None => None
    case Some(n) =>
      var v: int := if negative then -n else n;
      if MIN_INT64 <= v <= MAX_INT64 then Some(v) else None
  }

  lemma {:induction false} DigitsRoundTrip(n: nat)
    ensures ParseDigits(Digits(n)) == Some(n)
    ensures Digits(n) != "" && forall i :: 0 <= i < |Digits(n)| ==> '0' <= Digits(n)[i] <= '9'
  {
    if n >= 10 {
      DigitsRoundTrip(n / 10);
      assert Digits(n)[..|Digits(n)| - 1] == Digits(n / 10);
    }
  }

  lemma IntRoundTrip(n: Millis)
    ensures ParseInt(FormatInt(n)) == Some(n)
    ensures '|' !in FormatInt(n)
  {
    var v: int := n;
    if v < 0 {
      NegativeRoundTrip(-v);
    } else {
      DigitsRoundTrip(n);
      assert FormatInt(n) == Digits(n);
    }
  }

  lemma NegativeRoundTrip(m: int)
    requires 0 < m <= -MIN_INT64
    ensures ParseInt("-" + Digits(m)) == Some(-m)
    ensures '|' !in Digits(m)
  {
    DigitsRoundTrip(m);
    assert ("-" + Digits(m))[1..] == Digits(m);
  }

  // ----- formatSession / parseSession

  function FormatSession(sid: PlainId, last: Instant): string {
    sid + "|" + FormatInt(UnixMilli(last))
  }

  /** Position of the first '|', or the length when there is none (strings.Cut). */
  function Bar(s: string): (i: nat)
    ensures i <= |s|
    ensures i < |s| ==> s[i] == '|'
    ensures forall j :: 0 <= j < i ==> s[j] != '|'
  {
    if s == "" || s[0] == '|' then 0 else 1 + Bar(s[1..])
  }

  /** What uuid.NewString can return: never empty, never containing the separator. */
  type PlainId = s: string | s != "" && '|' !in s witness "0"

  /** A key's value as this package reads it. */
  datatype Stored = Corrupt | Session(sid: PlainId, last: Instant)

  function ParseSession(val: string): Stored {
    var i := Bar(val);
    if i == |val| then Corrupt
    else match ParseInt(val[i + 1..])
      case None => Corrupt
      case Some(ms) => if i == 0 then Corrupt else Session(val[..i], FromMillis(ms))
  }

  /** A stored session reads back as itself, its time cut to the millisecond. */
  lemma SessionRoundTrip(sid: PlainId, last: Instant)
    ensures ParseSession(FormatSession(sid, last)) == Session(sid, Watermark(last))
  {
    var val := FormatSession(sid, last);
    var ms := FormatInt(UnixMilli(last));
    IntRoundTrip(UnixMilli(last));
    assert val[..|sid|] == sid && val[|sid|] == '|' && val[|sid| + 1..] == ms;
    assert Bar(val) == |sid|;
  }

  // ----- deterministic ids (version-5 UUIDs): the hash is injective, so its input names it

  datatype Visitor = Visitor(distinctId: string, day: string)

  function FallbackName(who: Visitor): string { who.distinctId + "|" + who.day }

  /** staleSessionID: the half-hour window of the event, so a replay resolves to the same id. */
  function StaleName(who: Visitor, occur: Instant): string {
    who.distinctId + "|" + who.day + "|w" + FormatInt(occur / INACTIVITY * INACTIVITY / NANOS_PER_MILLI)
  }

  /** A stranded session can never be taken for the outage fallback of any visitor-day,
      whatever the ids, because a day never holds the separator. */
  lemma StaleIsNotFallback(who: Visitor, occur: Instant, other: Visitor)
    requires '|' !in other.day && |other.day| == 8 && |who.day| == 8
    requires '|' !in who.distinctId && '|' !in other.distinctId
    ensures StaleName(who, occur) != FallbackName(other)
  {
    var s, f := StaleName(who, occur), FallbackName(other);
    var bar := |who.distinctId|;
    assert s[bar] == '|' && s[bar + 9] == '|';
    assert forall k :: 0 <= k < |f| && f[k] == '|' ==> k == |other.distinctId|;
  }

  /** Text behind the last separator is told apart from the text before it. */
  lemma LastBar(x: string, a: string, y: string, b: string)
    requires '|' !in a && '|' !in b && x + "|" + a == y + "|" + b
    ensures x == y && a == b
  {
    var s := x + "|" + a;
    assert s[|x|] == '|' && s[|y|] == '|';
    assert forall i :: |x| < i < |s| ==> s[i] == a[i - |x| - 1];
    assert forall i :: |y| < i < |s| ==> s[i] == b[i - |y| - 1];
    assert |x| == |y| && x == s[..|x|] && a == s[|x| + 1..];
  }

  /** The outage fallback names its visitor and day. */
  lemma FallbackNamesVisitor(who: Visitor, other: Visitor)
    requires '|' !in who.day && '|' !in other.day
    ensures FallbackName(who) == FallbackName(other) <==> who == other
  {
    if FallbackName(who) == FallbackName(other) { LastBar(who.distinctId, who.day, other.distinctId, other.day); }
  }

  /** Any two stranded events share a session exactly when they are of one visitor, one day and one half-hour window. */
  lemma StaleNamesWindow(who: Visitor, a: Instant, other: Visitor, b: Instant)
    requires '|' !in who.day && '|' !in other.day
    ensures StaleName(who, a) == StaleName(other, b) <==> who == other && a / 1_800_000_000_000 == b / 1_800_000_000_000
  {
    if who == other { StaleGroupsByWindow(who, a, b); }
    if StaleName(who, a) == StaleName(other, b) {
      var ma, mb := FormatInt(a / INACTIVITY * INACTIVITY / NANOS_PER_MILLI),
                    FormatInt(b / INACTIVITY * INACTIVITY / NANOS_PER_MILLI);
      DigitsHaveNoBar(a / INACTIVITY * INACTIVITY / NANOS_PER_MILLI);
      DigitsHaveNoBar(b / INACTIVITY * INACTIVITY / NANOS_PER_MILLI);
      var x, y := who.distinctId + "|" + who.day, other.distinctId + "|" + other.day;
      assert StaleName(who, a) == x + "|" + ("w" + ma) && StaleName(other, b) == y + "|" + ("w" + mb);
      LastBar(x, "w" + ma, y, "w" + mb);
      LastBar(who.distinctId, who.day, other.distinctId, other.day);
    }
  }

  lemma DigitsHaveNoBar(n: int)
    ensures '|' !in FormatInt(n)
  {
    DigitsRoundTrip(if n < 0 then -n else n);
  }

  /** Two instants are within reach exactly when they are at most thirty minutes apart, either way. */
  lemma WithinIs(a: Instant, b: Instant)
    ensures Within(a, b) <==> -1_800_000_000_000 <= a - b <= 1_800_000_000_000
  {
  }

  /** Two stranded events of one visitor-day share a session exactly when they fall in one
      half-hour window. */
  lemma StaleGroupsByWindow(who: Visitor, a: Instant, b: Instant)
    ensures StaleName(who, a) == StaleName(who, b) <==> a / INACTIVITY == b / INACTIVITY
  {
    var ma, mb := a / INACTIVITY * INACTIVITY / NANOS_PER_MILLI, b / INACTIVITY * INACTIVITY / NANOS_PER_MILLI;
    assert ma == a / INACTIVITY * 1_800_000 && mb == b / INACTIVITY * 1_800_000;
    if StaleName(who, a) == StaleName(who, b) {
      var prefix := who.distinctId + "|" + who.day + "|w";
      assert FormatInt(ma) == StaleName(who, a)[|prefix|..];
      assert FormatInt(mb) == StaleName(who, b)[|prefix|..];
      FormatIntInjective(ma, mb);
    }
  }

  lemma FormatIntInjective(a: int, b: int)
    requires FormatInt(a) == FormatInt(b)
    ensures a == b
  {
    DigitsRoundTrip(if a < 0 then -a else a);
    DigitsRoundTrip(if b < 0 then -b else b);
    assert FormatInt(a)[0] == '-' <==> a < 0;
    assert FormatInt(b)[0] == '-' <==> b < 0;
    if a < 0 { assert FormatInt(a)[1..] == Digits(-a) && FormatInt(b)[1..] == Digits(-b); }
  }
}
