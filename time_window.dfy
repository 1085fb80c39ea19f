/** `timeRange` from server.js: the query window around an instant.  A
    JavaScript Date holds a time value in milliseconds since the epoch;
    `setTime` stores the new value through TimeClip, so a value beyond
    8.64e15 ms in either direction leaves an Invalid Date (`None` here). */
module TimeWindow {
  import opened Options
  import opened Calendar

  const MaxTimeValue := 8_640_000_000_000_000
  const MillisPerSecond := 1000
  const MillisPerDay := 86_400_000
  const SecondsPerDay := 86_400

  /** The time value a Date holds after `setTime(t)`. */
  function TimeClip(t: int): Option<int> {
    if -MaxTimeValue <= t <= MaxTimeValue then Some(t) else None
  }

  datatype Range = Range(forward: Option<int>, backward: Option<int>)

  /** `date` is the time value of the Date passed in (`date.getTime()`).
      The forward end lies `secondsForward` seconds after it and the backward
      end `secondsBackward` seconds before it, each an Invalid Date when it
      falls outside the representable range. */
  function TimeRange(date: int, secondsForward: int, secondsBackward: int): (r: Range)
    ensures r.forward.Some? <==> -MaxTimeValue <= date + secondsForward * MillisPerSecond <= MaxTimeValue
    ensures r.backward.Some? <==> -MaxTimeValue <= date - secondsBackward * MillisPerSecond <= MaxTimeValue
    ensures r.forward.Some? ==> r.forward.value - date == secondsForward * MillisPerSecond
    ensures r.backward.Some? ==> date - r.backward.value == secondsBackward * MillisPerSecond
  {
    Range(TimeClip(date + secondsForward * MillisPerSecond),
          TimeClip(date - secondsBackward * MillisPerSecond))
  }

  /** A corollary of `TimeRange`'s contract, kept for readers: with
      non-negative offsets and both ends representable, the window contains
      the instant and spans both offsets together. */
  lemma TimeRangeBrackets(date: int, secondsForward: int, secondsBackward: int)
    requires 0 <= secondsForward && 0 <= secondsBackward
    requires -MaxTimeValue <= date - secondsBackward * MillisPerSecond
    requires date + secondsForward * MillisPerSecond <= MaxTimeValue
    ensures var r := TimeRange(date, secondsForward, secondsBackward);
            && r.forward.Some? && r.backward.Some?
            && r.backward.value <= date <= r.forward.value
            && r.forward.value - date == secondsForward * MillisPerSecond
            && date - r.backward.value == secondsBackward * MillisPerSecond
            && r.forward.value - r.backward.value == (secondsForward + secondsBackward) * MillisPerSecond
  {
  }

  /** The time value of calendar day `d` at `msOfDay` milliseconds past UTC midnight. */
  function EpochMillis(d: Civil, msOfDay: int): int {
    DaysFromCivil(d) * MillisPerDay + msOfDay
  }

  /** A window of one day either side of an instant ends at the same clock
      time on the next calendar day and starts at it on the previous one,
      across month and year ends and leap days alike. */
  lemma TimeRangeOneDayEitherSide(d: Civil, msOfDay: int)
    requires Valid(d) && 0 <= msOfDay < MillisPerDay
    requires -100_000_000 < DaysFromCivil(d) < 99_999_999
    ensures TimeRange(EpochMillis(d, msOfDay), SecondsPerDay, SecondsPerDay)
            == Range(Some(EpochMillis(NextDay(d), msOfDay)), Some(EpochMillis(PrevDay(d), msOfDay)))
  {
    NextDayIsOneDayLater(d);
    PrevDayIsOneDayEarlier(d);
    var days := DaysFromCivil(d);
    assert EpochMillis(NextDay(d), msOfDay) == EpochMillis(d, msOfDay) + SecondsPerDay * MillisPerSecond
      == (days + 1) * MillisPerDay + msOfDay;
    assert EpochMillis(PrevDay(d), msOfDay) == EpochMillis(d, msOfDay) - SecondsPerDay * MillisPerSecond
      == (days - 1) * MillisPerDay + msOfDay;
  }

  /** The year-end case exercised by the repository's test: 31 December 2021
      18:04:36 with one day either way gives 30 December 2021 and
      1 January 2022 at 18:04:36. */
  lemma TimeRangeAcrossYearEnd()
    ensures var clock := ((18 * 60 + 4) * 60 + 36) * MillisPerSecond;
            TimeRange(EpochMillis(Civil(2021, 12, 31), clock), SecondsPerDay, SecondsPerDay)
            == Range(Some(EpochMillis(Civil(2022, 1, 1), clock)), Some(EpochMillis(Civil(2021, 12, 30), clock)))
  {
    var clock := ((18 * 60 + 4) * 60 + 36) * MillisPerSecond;
    assert DaysFromCivil(Civil(2021, 12, 31)) == 18992;
    TimeRangeOneDayEitherSide(Civil(2021, 12, 31), clock);
  }
}
