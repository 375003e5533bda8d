/** The uptime percentage shown for each service in the metrics report.
    Durations are whole seconds; the percentage is an exact `real`.
 */
module Metrics {
  import opened Timelines

  /** Percentage of the total time spent up; 100 when no time has elapsed
      (or the total is not positive). */
  function UptimePercentage(up: int, down: int): (r: real)
    ensures up + down <= 0 ==> r == 100.0
    ensures up + down > 0 ==> r * (up + down) as real == 100.0 * up as real
    ensures up >= 0 && down >= 0 ==> 0.0 <= r <= 100.0
    ensures up >= 0 && down >= 0 ==> (r == 100.0 <==> down == 0)
  {
    if up + down > 0 then
      var total := (up + down) as real;
      var pct := 100.0 * up as real / total;
      assert pct * total == 100.0 * up as real;
      assert pct == 100.0 ==> 100.0 * total == 100.0 * up as real;
      pct
    else
      100.0
  }

  /** The uptime percentage of a timeline, as the report computes it: the
      share of up time in the total, as a percentage, or 100 when no time
      has accumulated. */
  function TimelineUptime(t: GatusTimeline, now: int): (r: real)
    requires |t.history| > 0
    ensures var up, down := TotalTimeUp(t, now), TotalTimeDown(t, now);
            && (up + down <= 0 ==> r == 100.0)
            && (up + down > 0 ==> r * (up + down) as real == 100.0 * up as real)
            && (up >= 0 && down >= 0 ==> 0.0 <= r <= 100.0 && (r == 100.0 <==> down == 0))
  {
    UptimePercentage(TotalTimeUp(t, now), TotalTimeDown(t, now))
  }

  /** For a timeline folded from observations in date order, with `now` not
      before the last of them, the uptime lies between 0 and 100, and it is
      exactly 100 iff no down time was accumulated. */
  lemma UptimeInRange(name: string, entries: seq<GatusData>, now: int)
    requires |entries| > 0 && Sorted(entries) && now >= Last(entries).date
    ensures 0.0 <= TimelineUptime(GatusTimeline(name, Fold(entries)), now) <= 100.0
    ensures TimelineUptime(GatusTimeline(name, Fold(entries)), now) == 100.0
            <==> TotalTimeDown(GatusTimeline(name, Fold(entries)), now) == 0
  {
    ElapsedSinceFirstObservation(name, entries, now);
  }
}
