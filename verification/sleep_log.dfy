/** The quick sleep form of `src/components/QuickSleepLog.tsx`: its defaults, the check
    that refuses a save without bedtime or wake time, and the onset time derived from
    bedtime plus the minutes it took to fall asleep. */
module SleepLog {
  import opened Optional
  import opened Text
  import opened Js
  import opened Calendar
  import opened Clock
  import opened Records
  import opened Metrics
  import opened Store

  /** The quality slider's range, 1 to 5 in steps of 1. */
  type SliderValue = q: int | 1 <= q <= 5 witness 3

  /** The form's fields: `delay` is the text of the minutes-to-fall-asleep box. */
  datatype SleepForm = SleepForm(
    date: Day,
    bedtime: TimeText,
    delay: string,
    wake: TimeText,
    quality: SliderValue,
    notes: string)

  /** The form as it opens at hour `hour` of `now`: the logical sleep date, quality 3,
      everything else empty. */
  function NewForm(hour: int, now: CivilDate): (f: SleepForm)
    requires Valid(now)
    ensures f.date == LogicalSleepDate(hour, now)
    ensures hour < 12 ==> f.date == ToDay(now) - 1
    ensures f.quality == 3
    ensures f.bedtime == "" && f.delay == "" && f.wake == "" && f.notes == ""
  {
    SleepForm(LogicalSleepDate(hour, now), "", "", "", 3, "")
  }

  /** The toast "Required fields missing". */
  datatype SaveError = RequiredFieldsMissing

  /** The onset `handleSave` derives: only when the delay text parses to a number of
      minutes that is not negative, and then bedtime plus that many minutes on the
      clock, wrapping past midnight. */
  function DerivedOnset(bedtime: TimeText, delay: string): (r: Option<TimeText>)
    requires bedtime != ""
    ensures r.None? <==> delay == "" || ParseInt(delay).None? || ParseInt(delay).value < 0
    ensures r.Some? ==> IsClock(r.value)
    ensures r.Some? ==>
      ClockMinutes(r.value) == (ClockMinutes(bedtime) + ParseInt(delay).value) % MinutesPerDay
  {
    if delay == "" then None
    else match ParseInt(delay)
      case None => None
      case Some(minutes) =>
        if minutes < 0 then None
        else Some(FormatClock((ClockMinutes(bedtime) + minutes) % MinutesPerDay))
  }

  /** A delay typed as a whole number of minutes gives bedtime plus that many minutes. */
  lemma DelayInMinutes(bedtime: TimeText, minutes: nat)
    requires bedtime != ""
    ensures DerivedOnset(bedtime, IntToString(minutes))
            == Some(FormatClock((ClockMinutes(bedtime) + minutes) % MinutesPerDay))
  {
    var s := IntToString(minutes);
    assert s + "" == s;
    ParseIntOfDigitsThen(minutes, "");
    OnsetOfParsed(bedtime, s, minutes);
  }

  lemma OnsetOfParsed(bedtime: TimeText, delay: string, minutes: int)
    requires bedtime != "" && delay != "" && ParseInt(delay) == Some(minutes)
    ensures minutes >= 0 ==>
      DerivedOnset(bedtime, delay) == Some(FormatClock((ClockMinutes(bedtime) + minutes) % MinutesPerDay))
    ensures minutes < 0 ==> DerivedOnset(bedtime, delay).None?
  {
  }

  /** A negative delay derives no onset. */
  lemma NegativeDelayIgnored(bedtime: TimeText, minutes: int)
    requires bedtime != "" && minutes < 0
    ensures DerivedOnset(bedtime, IntToString(minutes)).None?
  {
    var s := IntToString(minutes);
    assert s + "" == s;
    ParseIntOfDigitsThen(minutes, "");
    OnsetOfParsed(bedtime, s, minutes);
  }

  /** `handleSave`: refused unless bedtime and wake time are filled in; otherwise the
      entry handed to the store, with empty notes left out. */
  function Save(f: SleepForm): (r: Result<SleepEntry, SaveError>)
    ensures r.Failure? <==> f.bedtime == "" || f.wake == ""
    ensures r.Success? ==> r.value.date == f.date && r.value.quality == f.quality
    ensures r.Success? ==> r.value.bedtime == Some(f.bedtime) && r.value.wake == Some(f.wake)
    ensures r.Success? ==> r.value.onset == DerivedOnset(f.bedtime, f.delay)
    ensures r.Success? ==> (r.value.notes.None? <==> f.notes == "")
    ensures r.Success? && r.value.notes.Some? ==> r.value.notes.value == f.notes
  {
    if f.bedtime == "" || f.wake == "" then Failure(RequiredFieldsMissing)
    else
      Success(SleepEntry(
        f.date,
        Some(f.bedtime),
        DerivedOnset(f.bedtime, f.delay),
        Some(f.wake),
        f.quality,
        if f.notes == "" then None else Some(f.notes)))
  }

  /** A saved night has a total exactly when an onset was derived, and then it is the
      time from bedtime plus the delay to the wake time. */
  lemma SavedTotalSleep(f: SleepForm)
    requires Save(f).Success?
    ensures var e := Save(f).value;
            TotalSleepMinutes(e).Some? <==> DerivedOnset(f.bedtime, f.delay).Some?
    ensures var e := Save(f).value;
            TotalSleepMinutes(e).Some? ==>
              TotalSleepMinutes(e).value
              == ForwardMinutes((ClockMinutes(f.bedtime) + ParseInt(f.delay).value) % MinutesPerDay,
                                ClockMinutes(f.wake))
  {
    var e := Save(f).value;
    assert e.onset == DerivedOnset(f.bedtime, f.delay) && e.wake == Some(f.wake);
    TotalFromDerivedOnset(e, f.bedtime, f.delay);
  }

  lemma TotalFromDerivedOnset(e: SleepEntry, bedtime: TimeText, delay: string)
    requires bedtime != "" && e.onset == DerivedOnset(bedtime, delay) && Filled(e.wake)
    ensures TotalSleepMinutes(e).Some? <==> e.onset.Some?
    ensures TotalSleepMinutes(e).Some? ==>
              TotalSleepMinutes(e).value
              == ForwardMinutes((ClockMinutes(bedtime) + ParseInt(delay).value) % MinutesPerDay,
                                ClockMinutes(e.wake.value))
  {
    if e.onset.Some? {
      var t := TotalSleepMinutes(e).value;
      ForwardMinutesUnique(ClockMinutes(e.onset.value), ClockMinutes(e.wake.value), t);
    }
  }

  /** Falling asleep within the minutes before waking: with bedtime 23:00, a 30 minute
      delay and waking at 07:00, the night holds 7 h 30 min of sleep. */
  lemma SavedNightExample(bedtime: TimeText, delay: string, wake: TimeText)
    requires IsClock(bedtime) && ClockMinutes(bedtime) == 23 * 60
    requires IsClock(wake) && ClockMinutes(wake) == 7 * 60
    requires delay != "" && ParseInt(delay) == Some(30)
    ensures var f := SleepForm(0, bedtime, delay, wake, 4, "");
            Save(f).Success? && TotalSleepMinutes(Save(f).value) == Some(450)
  {
    var f := SleepForm(0, bedtime, delay, wake, 4, "");
    var e := Save(f).value;
    assert e.onset == DerivedOnset(bedtime, delay);
    var o := DerivedOnset(bedtime, delay);
    assert o.Some?;
    assert ClockMinutes(o.value) == (ClockMinutes(bedtime) + 30) % MinutesPerDay;
    SameDayMinute(23 * 60 + 30);
    assert IsClock(e.onset.value) && e.wake == Some(wake);
    assert TotalSleepMinutes(e) == Some(ForwardMinutes(23 * 60 + 30, 7 * 60));
  }

  lemma SameDayMinute(m: int)
    requires 0 <= m < MinutesPerDay
    ensures m % MinutesPerDay == m
  {
  }

  /** The store gives back exactly the entry the form saved. */
  lemma SavedEntryRoundTrip(f: SleepForm)
    requires Save(f).Success?
    ensures MapSleepRow(SleepRowOf(Save(f).value)) == Save(f).value
  {
    SleepEntryRoundTrip(Save(f).value);
  }
}
