/**
 * The timer record: a name and an end instant. Whether a timer is active and how
 * much time remains are functions of the end instant and the current instant,
 * which is passed in explicitly instead of being read from the wall clock.
 *
 * Instants and durations are counted in ticks of 100 ns, the unit of
 * DateTimeOffset and TimeSpan; offsets do not matter because instants are
 * compared as points in time.
 */
module NamedTimers {

  datatype Option<T> = None | Some(value: T)

  const TicksPerMillisecond: int := 10_000
  const TicksPerSecond: int := 1000 * TicksPerMillisecond
  const TicksPerMinute: int := 60 * TicksPerSecond
  const TicksPerHour: int := 60 * TicksPerMinute

  /** How long an ended timer still counts as active. */
  const GraceTicks: int := 10 * TicksPerSecond

  /** A timer with an optional (nullable) name and the instant it ends. */
  datatype NamedTimer = NamedTimer(name: Option<string>, end: int)

  /** The timer is still running or ended less than ten seconds ago. */
  predicate IsActive(t: NamedTimer, now: int): (r: bool)
    ensures now < t.end ==> r
    ensures now >= t.end ==> (r <==> now - t.end < 10 * TicksPerSecond)
  {
    now < t.end + GraceTicks
  }

  /** The time left until the end, clamped at zero once the end has passed. */
  function RemainingTime(t: NamedTimer, now: int): (r: nat)
    ensures r > 0 <==> now < t.end
    ensures r > 0 ==> now + r == t.end
  {
    if now < t.end then t.end - now else 0
  }

  /** The grace window is strict: active 5 s after the end, inactive at 10 s and at 15 s. */
  lemma GraceWindowBoundaries(t: NamedTimer)
    ensures IsActive(t, t.end + 5 * TicksPerSecond)
    ensures !IsActive(t, t.end + 10 * TicksPerSecond)
    ensures !IsActive(t, t.end + 15 * TicksPerSecond)
    ensures forall now :: now < t.end + 10 * TicksPerSecond <==> IsActive(t, now)
  {
  }

  /** A timer with time left is active. */
  lemma RemainingImpliesActive(t: NamedTimer, now: int)
    ensures RemainingTime(t, now) > 0 ==> IsActive(t, now)
  {
  }

  /** Because the end is fixed, a timer that is inactive stays inactive. */
  lemma StaysInactive(t: NamedTimer, now: int, later: int)
    requires now <= later
    requires !IsActive(t, now)
    ensures !IsActive(t, later)
    ensures RemainingTime(t, later) == 0
  {
  }
}
