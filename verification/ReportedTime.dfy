/**
 How far an agent is believed about when something happened (`reported-time.ts`): a day back and an hour ahead of this
 server's clock. A log line's moment is such a time, or this server's own.
 */
module ReportedTime {
  import opened Wrappers

  const PAST_TOLERANCE_MS := 86_400_000
  const FUTURE_TOLERANCE_MS := 3_600_000

  predicate Plausible(at: int, now: int) { now - 24 * 60 * 60 * 1000 <= at <= now + 60 * 60 * 1000 }

  function Apart(a: int, b: int): nat { if a < b then b - a else a - b }

  /** The reported moment when it is plausible, otherwise the nearest that is; an unreadable one is now. */
  function PlausibleTime(reported: Option<int>, now: int): (at: int)
    ensures Plausible(at, now)
    ensures reported.None? ==> at == now
    ensures reported.Some? ==> forall t :: Plausible(t, now) ==> Apart(at, reported.value) <= Apart(t, reported.value)
  {
    if reported.None? then now
    else
      var earliest, latest := now - PAST_TOLERANCE_MS, now + FUTURE_TOLERANCE_MS;
      if earliest <= reported.value <= latest then reported.value
      else if reported.value > latest then latest
      else earliest
  }
}
