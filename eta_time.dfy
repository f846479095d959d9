/** The minute arithmetic of `StopEta.getEtaTimeLeft`.

    The source subtracts the current time from the parsed arrival time, builds a `Date` from the
    difference as if it were an instant, and reads `Date.getMinutes()`: the minute of the hour of
    that instant in the device's time zone. The result is therefore a minute-of-hour in 0..59,
    not a signed count of minutes. */
module EtaTime {

  const MillisPerMinute: int := 60000
  const MillisPerHour: int := 3600000

  /** The two platform answers the computation depends on: `new Date().getTime()` and the offset
      of the device's time zone from UTC, both in milliseconds. */
  datatype Clock = Clock(nowMillis: int, zoneOffsetMillis: int)

  /** `new Date(millis).getMinutes()` in a zone `zoneOffset` milliseconds ahead of UTC. Dafny's
      `/` and `%` are floor-based for a positive divisor, as the calendar is for instants before
      the epoch. */
  function MinuteOfHour(millis: int, zoneOffset: int): (m: int)
    ensures 0 <= m < 60
  {
    ((millis + zoneOffset) / MillisPerMinute) % 60
  }

  /** The value `getEtaTimeLeft` computes for an arrival at `etaMillis`. */
  function MinutesLeft(etaMillis: int, clock: Clock): (m: int)
    ensures 0 <= m < 60
  {
    MinuteOfHour(etaMillis - clock.nowMillis, clock.zoneOffsetMillis)
  }

  lemma DivShift(x: int, h: int)
    ensures (x + h * MillisPerHour) / MillisPerMinute == x / MillisPerMinute + 60 * h
  {
    var q, r := x / MillisPerMinute, x % MillisPerMinute;
    assert x + h * MillisPerHour == (q + 60 * h) * MillisPerMinute + r;
  }

  /** Under a zone offset of whole hours the offset drops out: the result is
      `(difference floor-div 60000) mod 60`. */
  lemma WholeHourOffset(millis: int, zoneOffset: int)
    requires zoneOffset % MillisPerHour == 0
    ensures MinuteOfHour(millis, zoneOffset) == (millis / MillisPerMinute) % 60
  {
    var h := zoneOffset / MillisPerHour;
    assert zoneOffset == h * MillisPerHour;
    DivShift(millis, h);
    ModShift(millis / MillisPerMinute, h);
  }

  lemma ModShift(q: int, h: int)
    ensures (q + 60 * h) % 60 == q % 60
  {
    var a, b := q / 60, q % 60;
    assert q + 60 * h == (a + h) * 60 + b;
  }

  /** An arrival one hour later shows the same number: the count wraps every hour. */
  lemma MinutesLeftHourly(etaMillis: int, clock: Clock)
    ensures MinutesLeft(etaMillis + MillisPerHour, clock) == MinutesLeft(etaMillis, clock)
  {
    var x := etaMillis - clock.nowMillis + clock.zoneOffsetMillis;
    DivShift(x, 1);
    ModShift(x / MillisPerMinute, 1);
  }

  /** Under a whole-hour offset, an arrival less than an hour ahead shows the whole minutes left. */
  lemma MinutesLeftWithinHour(etaMillis: int, clock: Clock)
    requires clock.zoneOffsetMillis % MillisPerHour == 0
    requires 0 <= etaMillis - clock.nowMillis < MillisPerHour
    ensures MinutesLeft(etaMillis, clock) == (etaMillis - clock.nowMillis) / MillisPerMinute
  {
    WholeHourOffset(etaMillis - clock.nowMillis, clock.zoneOffsetMillis);
  }

  /** Arrival now shows 0; five minutes ahead 5; sixty-five minutes ahead 5 again; a minute in
      the past 59, never a negative number. */
  lemma MinutesLeftExamples(nowMillis: int, zoneOffset: int)
    requires zoneOffset % MillisPerHour == 0
    ensures MinutesLeft(nowMillis, Clock(nowMillis, zoneOffset)) == 0
    ensures MinutesLeft(nowMillis + 5 * MillisPerMinute, Clock(nowMillis, zoneOffset)) == 5
    ensures MinutesLeft(nowMillis + 65 * MillisPerMinute, Clock(nowMillis, zoneOffset)) == 5
    ensures MinutesLeft(nowMillis - MillisPerMinute, Clock(nowMillis, zoneOffset)) == 59
  {
    var clock := Clock(nowMillis, zoneOffset);
    WholeHourOffset(0, zoneOffset);
    WholeHourOffset(5 * MillisPerMinute, zoneOffset);
    WholeHourOffset(65 * MillisPerMinute, zoneOffset);
    WholeHourOffset(-MillisPerMinute, zoneOffset);
    assert nowMillis + 5 * MillisPerMinute - nowMillis == 5 * MillisPerMinute;
    assert nowMillis + 65 * MillisPerMinute - nowMillis == 65 * MillisPerMinute;
    assert nowMillis - MillisPerMinute - nowMillis == -MillisPerMinute;
  }
}
