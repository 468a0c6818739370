/** The auto-refresh countdown: a remaining time in milliseconds that loses
    one second per tick, wraps back to the full two hours when it runs out
    (which is when a refresh fires), and is shown as whole hours and minutes. */
module AutoRefresh {

  const UpdateInterval: int := 2 * 60 * 60 * 1000
  const TickMillis: int := 1000
  const HourMillis: int := 60 * 60 * 1000
  const MinuteMillis: int := 60 * 1000

  /** Number of ticks in one full interval. */
  const TicksPerInterval: nat := 7200

  /** The remaining time after a tick, and whether the tick fired a refresh. */
  datatype Step = Step(remaining: int, refresh: bool)

  /** One tick of the countdown. It fires exactly when at most one second was
      left, and a countdown within the interval stays within it. */
  function TickStep(remaining: int): (s: Step)
    ensures s.refresh <==> remaining <= TickMillis
    ensures s.refresh ==> s.remaining == UpdateInterval
    ensures 0 < remaining <= UpdateInterval ==> 0 < s.remaining <= UpdateInterval
    ensures !s.refresh ==> s.remaining == remaining - TickMillis
  {
    var r := remaining - TickMillis;
    if r <= 0 then Step(UpdateInterval, true) else Step(r, false)
  }

  /** The quotient of JavaScript's `%`: `a / b` rounded toward zero. */
  function TruncQuot(a: int, b: int): int
    requires b > 0
  {
    if a >= 0 then a / b else -((-a) / b)
  }

  /** JavaScript's `%`: what is left of `a` after taking away `b` times the
      quotient rounded toward zero, so the remainder takes the sign of the dividend. */
  function TruncRem(a: int, b: int): (r: int)
    requires b > 0
    ensures a == b * TruncQuot(a, b) + r
    ensures a >= 0 ==> 0 <= r < b
    ensures a < 0 ==> -b < r <= 0
  {
    if a >= 0 then a % b else -((-a) % b)
  }

  /** What the countdown label shows. */
  datatype Display = Display(hours: int, mins: int)

  /** Whole hours, then whole minutes of the rest. Dafny's `/` by a positive
      divisor rounds down, as `Math.floor` of the quotient does. */
  function NextUpdate(remaining: int): (d: Display)
    ensures remaining >= 0 ==> 0 <= d.hours && 0 <= d.mins < 60
    ensures remaining >= 0 ==>
              d.hours * HourMillis + d.mins * MinuteMillis <= remaining
              < d.hours * HourMillis + (d.mins + 1) * MinuteMillis
    ensures remaining <= UpdateInterval ==> d.hours <= 2
  {
    Display(remaining / HourMillis, TruncRem(remaining, HourMillis) / MinuteMillis)
  }

  /** Within the interval the label reads two hours only at the full interval. */
  lemma TwoHoursOnlyWhenFull(remaining: int)
    requires 0 < remaining <= UpdateInterval
    ensures NextUpdate(remaining).hours == 2 <==> remaining == UpdateInterval
    ensures remaining == UpdateInterval ==> NextUpdate(remaining) == Display(2, 0)
  {
  }

  /** The remaining time after `k` ticks from a fresh countdown. */
  function RemainingAfter(k: nat): int {
    if k == 0 then UpdateInterval else TickStep(RemainingAfter(k - 1)).remaining
  }

  /** The first 7199 ticks count down by one second each and fire nothing. */
  lemma {:induction false} CountsDown(k: nat)
    requires k < TicksPerInterval
    ensures RemainingAfter(k) == UpdateInterval - TickMillis * k
    ensures k > 0 ==> !TickStep(RemainingAfter(k - 1)).refresh
  {
    if k > 0 {
      CountsDown(k - 1);
    }
  }

  /** The 7200th tick fires the refresh and restarts the full interval:
      a refresh every two hours. */
  lemma RefreshEveryInterval()
    ensures TickStep(RemainingAfter(TicksPerInterval - 1)).refresh
    ensures RemainingAfter(TicksPerInterval) == UpdateInterval
  {
    CountsDown(TicksPerInterval - 1);
  }

  /** The countdown state of one timer. */
  class RefreshTimer {
    var remaining: int

    ghost predicate Valid()
      reads this
    {
      0 < remaining <= UpdateInterval
    }

    constructor ()
      ensures Valid() && remaining == UpdateInterval
    {
      remaining := UpdateInterval;
    }

    /** One tick: count down, wrap and fire when out of time, and return
        whether to refresh and what the label shows. */
    method Tick() returns (refresh: bool, display: Display)
      requires Valid()
      modifies this
      ensures Valid()
      ensures Step(remaining, refresh) == TickStep(old(remaining))
      ensures refresh <==> old(remaining) <= TickMillis
      ensures remaining == if refresh then UpdateInterval else old(remaining) - TickMillis
      ensures display == NextUpdate(remaining)
      ensures 0 <= display.hours <= 2 && 0 <= display.mins < 60
    {
      remaining := remaining - TickMillis;
      refresh := false;
      if remaining <= 0 {
        remaining := UpdateInterval;
        refresh := true;
      }
      display := Display(remaining / HourMillis, TruncRem(remaining, HourMillis) / MinuteMillis);
    }
  }
}
