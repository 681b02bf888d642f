/** The statistics helpers of src/utils/statsUtils.ts, with instants as whole milliseconds. */
module StatsUtils {
  import opened Wrappers

  /** `calculateCompletionTime(request)`: hours from creation to completion, 0 when not completed. */
  function CalculateCompletionTime(createdAtMs: int, completedAtMs: Option<int>): (hours: real)
    ensures completedAtMs.None? ==> hours == 0.0
    ensures completedAtMs.Some? ==> hours * 3600000.0 == (completedAtMs.value - createdAtMs) as real
  {
    if completedAtMs.None? then 0.0
    else (completedAtMs.value - createdAtMs) as real / 3600000.0
  }

  /**
   * `filterByTimeRange(date, range)` with the clock reading `nowMs` passed in:
   * whether `date` lies within the range's window before now.
   */
  function FilterByTimeRange(dateMs: int, range: string, nowMs: int): (accepted: bool)
    ensures range == "24h" ==> (accepted <==> nowMs - dateMs <= 86400000)
    ensures range == "7d" ==> (accepted <==> nowMs - dateMs <= 604800000)
    ensures range == "30d" ==> (accepted <==> nowMs - dateMs <= 2592000000)
    ensures range != "24h" && range != "7d" && range != "30d" ==> accepted
  {
    var hours := (nowMs - dateMs) as real / 3600000.0;
    if range == "24h" then hours <= 24.0
    else if range == "7d" then hours <= 168.0
    else if range == "30d" then hours <= 720.0
    else true
  }

  /** The windows nest: 24h inside 7d inside 30d inside all. */
  lemma RangesNest(dateMs: int, nowMs: int)
    ensures FilterByTimeRange(dateMs, "24h", nowMs) ==> FilterByTimeRange(dateMs, "7d", nowMs)
    ensures FilterByTimeRange(dateMs, "7d", nowMs) ==> FilterByTimeRange(dateMs, "30d", nowMs)
    ensures FilterByTimeRange(dateMs, "30d", nowMs) ==> FilterByTimeRange(dateMs, "all", nowMs)
  {
  }

  /** A date later than now is inside every window. */
  lemma FutureDateAccepted(dateMs: int, range: string, nowMs: int)
    requires dateMs > nowMs
    ensures FilterByTimeRange(dateMs, range, nowMs)
  {
  }
}
