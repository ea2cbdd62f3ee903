/** The countdown on the home page: the time left until the party, split
    into days, hours, minutes and seconds. */
module Countdown {

  /** 2025-12-31 18:00 at UTC+3, in milliseconds since the Unix epoch. */
  const EVENT_DATE_MS := 1_767_193_200_000

  const MS_PER_SECOND := 1000
  const MS_PER_MINUTE := 60_000
  const MS_PER_HOUR := 3_600_000
  const MS_PER_DAY := 86_400_000

  datatype TimeLeft = TimeLeft(days: int, hours: int, minutes: int, seconds: int)

  /** Whole seconds split into days, hours, minutes and seconds: the parts
      stay below their next unit and add back up to the whole. */
  lemma SplitSeconds(s: nat)
    ensures 0 <= (s / 3600) % 24 < 24 && 0 <= (s / 60) % 60 < 60 && 0 <= s % 60 < 60
    ensures (s / 86400) * 86400 + ((s / 3600) % 24) * 3600 + ((s / 60) % 60) * 60 + s % 60 == s
  {
    var m := s / 60;
    var h := m / 60;
    assert s == m * 60 + s % 60;
    assert m == h * 60 + m % 60;
    assert h == (h / 24) * 24 + h % 24;
    assert h == s / 3600;
    assert h / 24 == s / 86400;
  }

  /** `calculateTimeLeft` for a difference in milliseconds. A difference of
      zero or less shows all zeros; otherwise each field is the floor of the
      difference in its unit, reduced modulo the next unit, and together the
      fields add up to the whole seconds left. */
  function CalculateTimeLeft(difference: int): (t: TimeLeft)
    ensures difference <= 0 ==> t == TimeLeft(0, 0, 0, 0)
    ensures difference > 0 ==>
      && t.days == difference / MS_PER_DAY
      && 0 <= t.hours < 24 && 0 <= t.minutes < 60 && 0 <= t.seconds < 60
      && t.days * 86400 + t.hours * 3600 + t.minutes * 60 + t.seconds == difference / MS_PER_SECOND
  {
    if difference > 0 then
      var s := difference / MS_PER_SECOND;
      assert difference / MS_PER_HOUR == s / 3600 && difference / MS_PER_MINUTE == s / 60;
      assert difference / MS_PER_DAY == s / 86400;
      SplitSeconds(s);
      TimeLeft(difference / MS_PER_DAY, (difference / MS_PER_HOUR) % 24,
               (difference / MS_PER_MINUTE) % 60, (difference / MS_PER_SECOND) % 60)
    else
      TimeLeft(0, 0, 0, 0)
  }

  /** What the countdown shows at time `now` (milliseconds). */
  function TimeLeftAt(now: int): (t: TimeLeft)
    ensures now >= EVENT_DATE_MS ==> t == TimeLeft(0, 0, 0, 0)
    ensures now < EVENT_DATE_MS ==>
      t.days * 86400 + t.hours * 3600 + t.minutes * 60 + t.seconds == (EVENT_DATE_MS - now) / MS_PER_SECOND
  {
    CalculateTimeLeft(EVENT_DATE_MS - now)
  }

  /** One second later the countdown shows one second less, as long as a
      whole second was left. */
  lemma TicksDown(now: int)
    requires now + MS_PER_SECOND < EVENT_DATE_MS
    ensures var a := TimeLeftAt(now); var b := TimeLeftAt(now + MS_PER_SECOND);
      b.days * 86400 + b.hours * 3600 + b.minutes * 60 + b.seconds
        == a.days * 86400 + a.hours * 3600 + a.minutes * 60 + a.seconds - 1
  {
    var d := EVENT_DATE_MS - now;
    assert (d - MS_PER_SECOND) / MS_PER_SECOND == d / MS_PER_SECOND - 1;
  }
}
