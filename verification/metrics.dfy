/** The derived metrics of `src/lib/db.ts` (copied verbatim into the store module): total
    sleep minutes, nap duration, the check-in context of an hour, the `Xh Ym` rendering
    of a duration and the logical sleep date. */
module Metrics {
  import opened Optional
  import opened Text
  import opened Js
  import opened Calendar
  import opened Clock
  import opened Records

  /** A time field JavaScript treats as truthy: present and not the empty string. */
  predicate Filled(t: Option<TimeText>) {
    t.Some? && t.value != ""
  }

  /** Minutes from one clock time forward to the next time the clock shows `to`. */
  function ForwardMinutes(from: ClockMinute, to: ClockMinute): (r: int)
    ensures 0 <= r < MinutesPerDay
    ensures (from + r) % MinutesPerDay == to
  {
    if to < from then to + MinutesPerDay - from else to - from
  }

  /** No other duration shorter than a day leads from `from` to `to`. */
  lemma ForwardMinutesUnique(from: ClockMinute, to: ClockMinute, r: int)
    requires 0 <= r < MinutesPerDay && (from + r) % MinutesPerDay == to
    ensures r == ForwardMinutes(from, to)
  {
    if from + r >= MinutesPerDay {
      assert (from + r) % MinutesPerDay == from + r - MinutesPerDay;
    }
  }

  /** `computeTotalSleepMinutes`: nothing unless onset and wake are both filled in;
      otherwise the time asleep, crossing midnight when wake is earlier than onset. */
  function TotalSleepMinutes(e: SleepEntry): (r: Option<int>)
    ensures r.None? <==> !Filled(e.onset) || !Filled(e.wake)
    ensures r.Some? ==> 0 <= r.value < MinutesPerDay
    ensures r.Some? ==>
      (ClockMinutes(e.onset.value) + r.value) % MinutesPerDay == ClockMinutes(e.wake.value)
  {
    if !Filled(e.onset) || !Filled(e.wake) then None
    else Some(ForwardMinutes(ClockMinutes(e.onset.value), ClockMinutes(e.wake.value)))
  }

  /** Falling asleep and waking at the same clock time counts as no sleep, not a day. */
  lemma SameOnsetAndWakeIsZero(e: SleepEntry)
    requires Filled(e.onset) && e.wake == e.onset
    ensures TotalSleepMinutes(e) == Some(0)
  {
  }

  /** `computeNapDuration`: nothing unless start and end are both filled in; otherwise
      end minus start, with no correction across midnight. */
  function NapDuration(n: Nap): (r: Option<int>)
    ensures r.None? <==> n.start == "" || n.end == ""
    ensures r.Some? ==> ClockMinutes(n.start) + r.value == ClockMinutes(n.end)
  {
    if n.start == "" || n.end == "" then None
    else Some(ClockMinutes(n.end) - ClockMinutes(n.start))
  }

  /** A nap agrees with the sleep computation for the same two times unless it crosses
      midnight, where it comes out a whole day short, hence negative. */
  lemma NapAcrossMidnight(n: Nap)
    requires n.start != "" && n.end != ""
    ensures var s, e := ClockMinutes(n.start), ClockMinutes(n.end);
            NapDuration(n).value
              == ForwardMinutes(s, e) - (if e < s then MinutesPerDay else 0)
    ensures NapDuration(n).value < 0 <==> ClockMinutes(n.end) < ClockMinutes(n.start)
  {
  }

  /** A nap from 23:50 to 00:10 lasts -1420 minutes. */
  lemma NapFromTenToMidnight()
    ensures NapDuration(Nap(0, FormatClock(23 * 60 + 50), FormatClock(10), false, 3, None))
            == Some(-1420)
  {
  }

  const Morning: string := "Morning"
  const Midday: string := "Midday"
  const Evening: string := "Evening"
  const Other: string := "Other"

  /** `autoDetectContext`: the check-in context the form preselects for an hour of the
      day; it never proposes "Other". */
  function AutoDetectContext(hour: int): (c: string)
    ensures c == Morning <==> hour < 11
    ensures c == Midday <==> 11 <= hour < 16
    ensures c == Evening <==> 16 <= hour
    ensures c != Other
  {
    if hour < 11 then Morning
    else if hour < 16 then Midday
    else Evening
  }

  /** The two numbers `formatMinutesAsTime` prints. */
  datatype HoursMinutes = HoursMinutes(hours: int, minutes: int)

  /** `Math.floor(m / 60)` and `m % 60`. Floor division with a truncating remainder: for
      a negative duration that is not a whole number of hours the two parts add up to an
      hour less than the duration (-30 minutes shows as -1 h -30 m). */
  function SplitMinutes(m: int): (hm: HoursMinutes)
    ensures m >= 0 ==> 0 <= hm.hours && 0 <= hm.minutes < 60
    ensures m < 0 ==> hm.hours < 0 && -60 < hm.minutes <= 0
    ensures 60 * hm.hours + hm.minutes == (if m < 0 && m % 60 != 0 then m - 60 else m)
  {
    HoursMinutes(m / 60, Rem(m, 60))
  }

  /** The em dash shown for a missing duration. */
  const EmDash: string := "\U{2014}"

  /** The store module's copy of the helper shows this instead: the em dash's UTF-8
      bytes read as Windows-1252 (see `MisdecodedEmDash`). */
  const StorePlaceholder: string := "\U{E2}\U{20AC}\U{201D}"

  function RenderDuration(m: int): string {
    var hm := SplitMinutes(m);
    IntToString(hm.hours) + "h " + IntToString(hm.minutes) + "m"
  }

  /** `formatMinutesAsTime` in `src/lib/db.ts`: a dash for no value, else `Xh Ym`. */
  function FormatMinutesAsTime(m: Option<int>): (s: string)
    ensures m.None? <==> s == EmDash
    ensures m.Some? && m.value >= 0 ==>
      s == NatToString(m.value / 60) + "h " + NatToString(m.value % 60) + "m"
  {
    match m
    case None => EmDash
    case Some(v) => RenderDuration(v)
  }

  /** `formatMinutesAsTime` in the store module, which the dashboard imports: the same
      rendering with a different placeholder. */
  function StoreFormatMinutesAsTime(m: Option<int>): (s: string)
    ensures m.None? <==> s == StorePlaceholder
    ensures m.Some? ==> s == FormatMinutesAsTime(m)
  {
    match m
    case None => StorePlaceholder
    case Some(v) => RenderDuration(v)
  }

  /** Different non-negative durations are never shown alike. */
  lemma FormatMinutesInjective(a: nat, b: nat)
    ensures FormatMinutesAsTime(Some(a)) == FormatMinutesAsTime(Some(b)) <==> a == b
  {
    if FormatMinutesAsTime(Some(a)) == FormatMinutesAsTime(Some(b)) {
      HoursMinutesTextInjective(a / 60, a % 60, b / 60, b % 60);
      assert a == 60 * (a / 60) + a % 60 && b == 60 * (b / 60) + b % 60;
    }
  }

  /** `Xh Ym` with non-negative numbers determines both numbers. */
  lemma HoursMinutesTextInjective(h1: nat, m1: nat, h2: nat, m2: nat)
    requires NatToString(h1) + "h " + NatToString(m1) + "m"
             == NatToString(h2) + "h " + NatToString(m2) + "m"
    ensures h1 == h2 && m1 == m2
  {
    DigitsPairText(NatToString(h1), NatToString(m1), NatToString(h2), NatToString(m2));
  }

  lemma DigitsPairText(x1: string, y1: string, x2: string, y2: string)
    requires AllDigits(x1) && AllDigits(y1) && AllDigits(x2) && AllDigits(y2)
    requires x1 + "h " + y1 + "m" == x2 + "h " + y2 + "m"
    ensures x1 == x2 && y1 == y2
  {
    var s1, s2 := "h " + y1 + "m", "h " + y2 + "m";
    assert x1 + "h " + y1 + "m" == x1 + s1;
    assert x2 + "h " + y2 + "m" == x2 + s2;
    DigitsThenSeparator(x1, s1, x2, s2);
    assert s1 == "h " + (y1 + "m") && s2 == "h " + (y2 + "m");
    ConcatInjective("h ", y1 + "m", "h ", y2 + "m");
    DigitsThenSeparator(y1, "m", y2, "m");
  }

  /** The shown parts of a negative duration, e.g. `-1h -30m` for half an hour. */
  lemma NegativeHalfHour()
    ensures FormatMinutesAsTime(Some(-30)) == "-1h -30m"
  {
    assert SplitMinutes(-30) == HoursMinutes(-1, -30);
    assert NatToString(30) == "30";
    assert IntToString(-1) == "-1" && IntToString(-30) == "-30";
  }

  /** UTF-8 encoding of a character of the Basic Multilingual Plane. */
  function Utf8Bytes(c: char): (bs: seq<nat>)
    requires c as int < 0x1_0000
    ensures 1 <= |bs| <= 3
    ensures forall i :: 0 <= i < |bs| ==> bs[i] < 0x100
    ensures |bs| == 1 <==> c as int < 0x80
  {
    var n := c as int;
    if n < 0x80 then [n]
    else if n < 0x800 then [0xC0 + n / 0x40, 0x80 + n % 0x40]
    else [0xE0 + n / 0x1000, 0x80 + (n / 0x40) % 0x40, 0x80 + n % 0x40]
  }

  /** Windows-1252 reading of a byte; the five unassigned bytes give `None`. */
  function Windows1252(b: nat): Option<char>
    requires b < 0x100
  {
    if b < 0x80 || 0xA0 <= b then Some(b as char)
    else
      var table := [
        Some('\U{20AC}'), None, Some('\U{201A}'), Some('\U{0192}'),
        Some('\U{201E}'), Some('\U{2026}'), Some('\U{2020}'), Some('\U{2021}'),
        Some('\U{02C6}'), Some('\U{2030}'), Some('\U{0160}'), Some('\U{2039}'),
        Some('\U{0152}'), None, Some('\U{017D}'), None,
        None, Some('\U{2018}'), Some('\U{2019}'), Some('\U{201C}'),
        Some('\U{201D}'), Some('\U{2022}'), Some('\U{2013}'), Some('\U{2014}'),
        Some('\U{02DC}'), Some('\U{2122}'), Some('\U{0161}'), Some('\U{203A}'),
        Some('\U{0153}'), None, Some('\U{017E}'), Some('\U{0178}')];
      table[b - 0x80]
  }

  /** The store's placeholder is the em dash written as UTF-8 and read back byte by
      byte as Windows-1252, so the two copies of the helper differ only on a missing
      value. */
  lemma MisdecodedEmDash()
    ensures Utf8Bytes(EmDash[0]) == [0xE2, 0x80, 0x94]
    ensures |StorePlaceholder| == 3
    ensures forall i :: 0 <= i < 3 ==>
      Windows1252(Utf8Bytes(EmDash[0])[i]) == Some(StorePlaceholder[i])
  {
  }

  /** `getLogicalSleepDate`: a night reported before noon belongs to the calendar day
      before `now` (`setDate(getDate() - 1)`, which rolls over months and years). */
  function LogicalSleepDate(hour: int, now: CivilDate): (d: Day)
    requires Valid(now)
    ensures d == ToDay(now) - 1 <==> hour < 12
    ensures d == ToDay(now) <==> 12 <= hour
  {
    if hour < 12 then ToDay(PrevDay(now)) else ToDay(now)
  }
}
