/** Helpers of the crawler package (crawler/util.go). */
module CrawlerUtil {
  import opened Wrappers
  import opened Times
  import opened Efa

  /** Loading the "Local" time zone failed; Go hands that error back. */
  datatype TimeError = LocationUnavailable

  /**
   * getTimeAtDate: the time of day of `oldTime` (to the second) on the
   * calendar day of `date`, in the local zone. `localLoaded` says whether
   * `time.LoadLocation("Local")` succeeded; when it did not, no time is made.
   */
  function GetTimeAtDate(oldTime: Time, date: Time, localLoaded: bool): (r: Result<Time, TimeError>)
    ensures r.Err? <==> !localLoaded
    ensures r.Ok? ==> SameDate(r.value, date) && SameClock(r.value, oldTime) && r.value.nanosecond == 0
  {
    if !localLoaded then Err(LocationUnavailable)
    else Ok(Timestamp(date.year, date.month, date.day, oldTime.hour, oldTime.minute, oldTime.second, 0))
  }

  /**
   * The three facts of GetTimeAtDate's contract pin its result down: any
   * time with that date, that clock and no nanoseconds is the result.
   */
  lemma AnchoredTimeIsUnique(oldTime: Time, date: Time, t: Time)
    requires SameDate(t, date) && SameClock(t, oldTime) && t.nanosecond == 0
    ensures GetTimeAtDate(oldTime, date, true) == Ok(t)
  {
  }

  /**
   * Re-anchoring is idempotent, and anchoring a time on its own date only
   * drops its nanoseconds.
   */
  lemma AnchoringIsIdempotent(oldTime: Time, date: Time)
    ensures var r := GetTimeAtDate(oldTime, date, true);
      r.Ok? && GetTimeAtDate(r.value, date, true) == r
    ensures GetTimeAtDate(oldTime, oldTime, true) == Ok(oldTime) <==> oldTime.nanosecond == 0
  {
  }

  /**
   * filterLinesByMOT: the serving lines of mode `mot`, in order, collected
   * by a loop that appends to an initially empty result.
   */
  method FilterLinesByMot(lines: seq<ServingLine>, mot: int) returns (result: seq<ServingLine>)
    ensures result == MotFiltered(lines, mot)
    ensures forall l :: l in result ==> l in lines && l.motType == mot
  {
    result := [];
    for i := 0 to |lines|
      invariant result == MotFiltered(lines[..i], mot)
    {
      assert lines[..i + 1][..i] == lines[..i];
      if lines[i].motType == mot {
        result := result + [lines[i]];
      }
    }
    assert lines[..|lines|] == lines;
  }
}
