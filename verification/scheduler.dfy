/** The wait of the background report loop: the next 09:00:00.000000 in
    Indian Standard Time, computed from the current UTC instant. */
module Scheduler {
  import opened Clock

  /** IST is UTC+5:30. */
  const IstOffset: int := 5 * Hour + 30 * Minute

  /** 09:00 as an offset into an IST day. */
  const RunAt: int := 9 * Hour

  /** 03:30 as an offset into a UTC day: the same instant as 09:00 IST. */
  const RunAtUtc: int := 3 * Hour + 30 * Minute

  /** `t`, read on the IST clock, is exactly 09:00:00.000000. A day starts at
      a multiple of `Day`, so for instants before the epoch the day is found
      by rounding down, as Python's calendar arithmetic does. */
  predicate IsRunInstant(t: int) {
    t % Day == RunAt
  }

  /** The planned run on the IST clock and the wait until it. */
  datatype Plan = Plan(nextRunIst: int, sleep: int)

  /** One pass of the loop up to the sleep: today's 09:00 IST, or tomorrow's
      when the IST clock already reads 09:00 or later. */
  function NextRun(nowUtc: int): (p: Plan)
    ensures IsRunInstant(p.nextRunIst)
    ensures p.nextRunIst > nowUtc + IstOffset
    ensures forall t :: IsRunInstant(t) && t > nowUtc + IstOffset ==> p.nextRunIst <= t
    ensures p.sleep == p.nextRunIst - (nowUtc + IstOffset)
    ensures 0 < p.sleep <= Day
    ensures p.sleep == Day <==> IsRunInstant(nowUtc + IstOffset)
    ensures (p.nextRunIst - IstOffset) % Day == RunAtUtc
    ensures (p.nextRunIst / Day == (nowUtc + IstOffset) / Day) <==> (nowUtc + IstOffset) % Day < RunAt
    ensures (nowUtc + IstOffset) % Day >= RunAt ==> p.nextRunIst / Day == (nowUtc + IstOffset) / Day + 1
  {
    var nowIst := nowUtc + IstOffset;
    var today := nowIst - nowIst % Day + RunAt;
    var next := if nowIst >= today then today + Day else today;
    Plan(next, next - nowIst)
  }

  /** After waking at the planned instant, the report may take any time
      short of a day before the clock is read again; the run planned then
      is exactly one day after the previous one, so the loop does not drift. */
  lemma NoDrift(nowUtc: int, d: int)
    requires 0 <= d < Day
    ensures var next := NextRun(nowUtc).nextRunIst;
            NextRun(next - IstOffset + d).nextRunIst == next + Day
  {
  }
}
