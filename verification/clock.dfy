/** Times of day. The forms use `<input type="time">`, whose value is either empty or
    `HH:MM`; the helpers read it with `split(':').map(Number)` into minutes of the day. */
module Clock {
  import opened Text

  const MinutesPerDay: int := 24 * 60

  /** A minute of the day, 00:00 to 23:59. */
  type ClockMinute = m: int | 0 <= m < MinutesPerDay

  /** Two digits of hours up to 23, a colon, two digits of minutes up to 59. */
  predicate IsClock(s: string) {
    && |s| == 5 && s[2] == ':'
    && AllDigits(s[..2]) && AllDigits(s[3..])
    && DigitsValue(s[..2]) <= 23 && DigitsValue(s[3..]) <= 59
  }

  /** The value of a time field: empty, or a well-formed `HH:MM`. */
  type TimeText = s: string | s == "" || IsClock(s) witness ""

  /** `const [h, m] = s.split(':').map(Number); h * 60 + m`. */
  function ClockMinutes(s: string): ClockMinute
    requires IsClock(s)
  {
    DigitsValue(s[..2]) * 60 + DigitsValue(s[3..])
  }

  /** `HH:MM` for a minute of the day, as `toTimeString().slice(0, 5)` writes it. */
  function FormatClock(m: ClockMinute): (s: TimeText)
    ensures IsClock(s) && ClockMinutes(s) == m
  {
    var s := Pad(m / 60, 2) + ":" + Pad(m % 60, 2);
    assert s[..2] == Pad(m / 60, 2) && s[3..] == Pad(m % 60, 2);
    s
  }

  /** Every well-formed time is written back exactly as it was read. */
  lemma FormatClockOfClockMinutes(s: string)
    requires IsClock(s)
    ensures FormatClock(ClockMinutes(s)) == s
  {
    var m := ClockMinutes(s);
    var h, k := DigitsValue(s[..2]), DigitsValue(s[3..]);
    assert m / 60 == h && m % 60 == k;
    var t := FormatClock(m);
    DigitsInjective(t[..2], s[..2]);
    DigitsInjective(t[3..], s[3..]);
    assert s == s[..2] + ":" + s[3..];
    assert t == t[..2] + ":" + t[3..];
  }
}
