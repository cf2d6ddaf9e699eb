/** The time-tiered refund granted when a reservation is cancelled. */
module RefundPolicy {

  const SecondsPerHour: int := 3600

  /** Whole hours from `from` to `to`, truncated toward zero, as a Java duration count in hours. */
  function HoursBetween(from: int, to: int): (h: int)
    ensures from <= to ==> 0 <= h && h * SecondsPerHour <= to - from < (h + 1) * SecondsPerHour
    ensures to < from ==> h <= 0 && (h - 1) * SecondsPerHour < to - from <= h * SecondsPerHour
  {
    var d := to - from;
    if d >= 0 then d / SecondsPerHour else -((-d) / SecondsPerHour)
  }

  /** The refund for a reservation of `value` starting at `start`, cancelled at `now`. The tiers are
      tested on whole hours; the last test multiplies the hours by 60 and compares with 1, which holds
      exactly when at least one whole hour remains. */
  function RefundValue(value: real, start: int, now: int): (refund: real)
    ensures 24 * SecondsPerHour <= start - now ==> refund == value
    ensures 12 * SecondsPerHour <= start - now < 24 * SecondsPerHour ==> refund == 0.75 * value
    ensures 2 * SecondsPerHour <= start - now < 12 * SecondsPerHour ==> refund == 0.5 * value
    ensures SecondsPerHour <= start - now < 2 * SecondsPerHour ==> refund == 0.25 * value
    ensures start - now < SecondsPerHour ==> refund == 0.0
    ensures 0.0 <= value ==> 0.0 <= refund <= value
  {
    var hours := HoursBetween(now, start);
    if hours >= 24 then value
    else if hours >= 12 then 0.75 * value
    else if hours >= 2 then 0.5 * value
    else if hours * 60 >= 1 then 0.25 * value
    else 0.0
  }

  /** Cancelling earlier never refunds less. */
  lemma RefundMonotone(value: real, start: int, earlier: int, later: int)
    requires 0.0 <= value
    requires earlier <= later
    ensures RefundValue(value, start, later) <= RefundValue(value, start, earlier)
  {
  }

  /** The service's unit-test rows with a fee of 10: the schedule starts k hours after the test reads
      the clock, and the service reads it again `lag` seconds later, so k hours minus a little remain. */
  lemma ServiceTestRows(t0: int, lag: int)
    requires 0 < lag <= SecondsPerHour
    ensures RefundValue(10.0, t0 + 25 * SecondsPerHour, t0 + lag) == 10.0
    ensures RefundValue(10.0, t0 + 13 * SecondsPerHour, t0 + lag) == 7.5
    ensures RefundValue(10.0, t0 + 3 * SecondsPerHour, t0 + lag) == 5.0
    ensures RefundValue(10.0, t0 + 2 * SecondsPerHour, t0 + lag) == 2.5
    ensures RefundValue(10.0, t0 + SecondsPerHour, t0 + lag) == 0.0
  {
  }

  /** A cancellation thirty minutes ahead of the start refunds nothing: the quarter tier needs a
      whole hour, not a minute. */
  lemma HalfHourRefundsNothing(value: real, start: int)
    ensures RefundValue(value, start, start - 30 * 60) == 0.0
  {
  }
}
