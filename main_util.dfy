/** Helpers of the main package (util.go). */
module MainUtil {
  import opened Wrappers
  import opened Times
  import opened Efa
  import CrawlerUtil

  /**
   * getTimeToday: the time of day of `oldTime` (to the second) on today's
   * date. `now` is what `time.Now()` returned; `localLoaded` says whether
   * `time.LoadLocation("Local")` succeeded.
   */
  function GetTimeToday(oldTime: Time, now: Time, localLoaded: bool): (r: Result<Time, CrawlerUtil.TimeError>)
    ensures r.Err? <==> !localLoaded
    ensures r.Ok? ==> SameDate(r.value, now) && SameClock(r.value, oldTime) && r.value.nanosecond == 0
  {
    if !localLoaded then Err(CrawlerUtil.LocationUnavailable)
    else Ok(Timestamp(now.year, now.month, now.day, oldTime.hour, oldTime.minute, oldTime.second, 0))
  }

  /** getTimeToday is the crawler's getTimeAtDate with today as the date. */
  lemma TodayIsAnchoringOnNow(oldTime: Time, now: Time, localLoaded: bool)
    ensures GetTimeToday(oldTime, now, localLoaded) == CrawlerUtil.GetTimeAtDate(oldTime, now, localLoaded)
  {
  }

  /**
   * filterLinesByMOT of the main package: the serving lines of mode `mot`,
   * in order, collected by a loop that appends to an initially empty result.
   */
  method FilterLinesByMot(lines: seq<ServingLine>, mot: int) returns (result: seq<ServingLine>)
    ensures result == MotFiltered(lines, mot)
    ensures |result| <= |lines|
  {
    result := [];
    for i := 0 to |lines|
      invariant result == MotFiltered(lines[..i], mot)
    {
      assert lines[..i + 1][..i] == lines[..i];
      if lines[i].motType == mot {
        result := result + [lines[i]];
      }
    }
    assert lines[..|lines|] == lines;
  }
}
