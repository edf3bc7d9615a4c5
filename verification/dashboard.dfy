/** The dashboard of `src/pages/Index.tsx` (`loadDashboardData`): last night's sleep, the
    latest sleepiness score, today's nap total, the seven-day series of mean sleepiness
    and total sleep, and today's arm of the running experiment. Records come from the
    store (`src/lib/supabase-db.ts`), which lists sleep entries and check-ins newest
    first; durations are shown with that module's `formatMinutesAsTime`. */
module Dashboard {
  import opened Optional
  import opened Text
  import opened Js
  import opened Calendar
  import opened Clock
  import opened Records
  import opened Metrics
  import opened Stats
  import opened Experiments
  import opened Summary
  import opened Graphs

  /** `last7Days`: the seven days ending today, oldest first. */
  function Last7Days(today: Day): (days: seq<Day>)
    ensures |days| == 7 && days[6] == today
    ensures forall i :: 0 <= i < 6 ==> days[i + 1] == days[i] + 1
  {
    seq(7, i requires 0 <= i < 7 => today - (6 - i))
  }

  /** The days of the series are exactly the seven days ending today. */
  lemma Last7DaysCoverWeek(today: Day, d: Day)
    ensures d in Last7Days(today) <==> today - 6 <= d <= today
  {
    if today - 6 <= d <= today {
      assert Last7Days(today)[d - today + 6] == d;
    }
  }

  /** The day's point of the sleepiness series: 0 without a check-in that day, else the
      mean score rounded to one decimal (`Math.round(avg * 10) / 10`). */
  function DailySss(checkIns: seq<CheckIn>, d: Day): (r: real)
    ensures var on := Filter(checkIns, OnDay(CheckInDate, d));
            |on| == 0 ==> r == 0.0
    ensures var on := Filter(checkIns, OnDay(CheckInDate, d));
            |on| > 0 ==> AvgSss(on) - 0.05 < r <= AvgSss(on) + 0.05
    ensures (r * 10.0).Floor as real == r * 10.0
  {
    var on := Filter(checkIns, OnDay(CheckInDate, d));
    if |on| == 0 then 0.0 else MathRound(AvgSss(on) * 10.0) as real / 10.0
  }

  /** `sleepEntries.find(e => e.date === date)`. */
  function FirstNightOn(sleep: seq<SleepEntry>, d: Day): (r: Option<SleepEntry>)
    ensures r.None? <==> forall i :: 0 <= i < |sleep| ==> sleep[i].date != d
    ensures r.Some? ==> exists i :: 0 <= i < |sleep| && sleep[i] == r.value && r.value.date == d
                                    && forall j :: 0 <= j < i ==> sleep[j].date != d
  {
    if |sleep| == 0 then None
    else if sleep[0].date == d then Some(sleep[0])
    else
      var r := FirstNightOn(sleep[1..], d);
      assert forall i :: 1 <= i < |sleep| ==> sleep[i] == sleep[1..][i - 1];
      r
  }

  /** The day's point of the sleep series: the total sleep of the first night listed
      for it, and 0 when there is none or it has no total. */
  function DailyTst(sleep: seq<SleepEntry>, d: Day): (r: int)
    ensures 0 <= r < MinutesPerDay
    ensures FirstNightOn(sleep, d).None? ==> r == 0
    ensures FirstNightOn(sleep, d).Some? ==> r == TotalSleepMinutes(FirstNightOn(sleep, d).value).GetOr(0)
  {
    match FirstNightOn(sleep, d)
    case None => 0
    case Some(e) => TotalSleepMinutes(e).GetOr(0)
  }

  /** `(dur ?? 0)` summed over the naps: naps without a duration count as 0. */
  function NapSum(naps: seq<Nap>): int {
    if |naps| == 0 then 0 else NapSum(naps[..|naps| - 1]) + NapDuration(naps[|naps| - 1]).GetOr(0)
  }

  /** Counting a missing duration as 0 gives the weekly summary's total, which leaves
      it out. */
  lemma {:induction false} NapSumIsSummaryTotal(naps: seq<Nap>)
    ensures NapSum(naps) == TotalNapMinutes(naps)
    decreases |naps|
  {
    if |naps| > 0 {
      var init, last := naps[..|naps| - 1], naps[|naps| - 1];
      NapSumIsSummaryTotal(init);
      assert naps == init + [last];
      NapTotalAppend(init, [last]);
      SingleNapTotal(last);
    }
  }

  lemma SingleNapTotal(n: Nap)
    ensures TotalNapMinutes([n]) == NapDuration(n).GetOr(0)
  {
    var o := NapDuration(n);
    assert Map([n], NapDuration) == [o];
    assert [o][1..] == [];
    assert Somes([o]) == (if o.Some? then [o.value] else []) + Somes([o][1..]);
    if o.Some? {
      assert [o.value][..0] == [];
      assert Sum([o.value]) == o.value;
    }
  }

  /** Today's nap minutes: the naps dated today, a missing duration counted as 0. */
  function TodayNapMinutes(naps: seq<Nap>, today: Day): int {
    NapSum(Filter(naps, OnDay(NapDate, today)))
  }

  /** The dashboard's nap total of a day is the weekly summary's nap total over the
      range of that single day. */
  lemma TodayNapsAgreeWithSummary(naps: seq<Nap>, today: Day)
    ensures TodayNapMinutes(naps, today) == TotalNapMinutes(Within(naps, NapDate, Range(today, today)))
  {
    FilterEquivalent(naps, OnDay(NapDate, today), DatedWithin(NapDate, Range(today, today)));
    NapSumIsSummaryTotal(Filter(naps, OnDay(NapDate, today)));
  }

  /** `exp.start_date <= today && exp.end_date >= today`; false with no end date. */
  predicate RunningOn(e: Experiment, today: Day) {
    e.start <= today && e.end.Some? && e.end.value >= today
  }

  /** The dashboard's running experiments are the ones the experiment list marks
      Active. */
  lemma RunningIsActiveBadge(e: Experiment, today: Day)
    ensures RunningOn(e, today) <==> Active in Badges(e, today)
  {
  }

  /** `experiments.find(...)`: the first experiment running today. */
  function ActiveExperiment(exps: seq<Experiment>, today: Day): (r: Option<Experiment>)
    ensures r.None? <==> forall i :: 0 <= i < |exps| ==> !RunningOn(exps[i], today)
    ensures r.Some? ==> exists i :: 0 <= i < |exps| && exps[i] == r.value && RunningOn(r.value, today)
                                    && forall j :: 0 <= j < i ==> !RunningOn(exps[j], today)
  {
    if |exps| == 0 then None
    else if RunningOn(exps[0], today) then Some(exps[0])
    else
      var r := ActiveExperiment(exps[1..], today);
      assert forall i :: 1 <= i < |exps| ==> exps[i] == exps[1..][i - 1];
      r
  }

  /** `expAssignments.find(a => a.date === today)`: the first assignment of the
      experiment for the day. */
  function AssignmentOn(assignments: seq<ArmAssignment>, id: Id, today: Day): (r: Option<ArmAssignment>)
    ensures r.None? <==> forall i :: 0 <= i < |assignments| ==>
                           !(assignments[i].experimentId == id && assignments[i].date == today)
    ensures r.Some? ==> exists i :: 0 <= i < |assignments| && assignments[i] == r.value
                          && r.value.experimentId == id && r.value.date == today
                          && forall j :: 0 <= j < i ==>
                               !(assignments[j].experimentId == id && assignments[j].date == today)
  {
    if |assignments| == 0 then None
    else if assignments[0].experimentId == id && assignments[0].date == today then Some(assignments[0])
    else
      var r := AssignmentOn(assignments[1..], id, today);
      assert forall i :: 1 <= i < |assignments| ==> assignments[i] == assignments[1..][i - 1];
      r
  }

  /** The arm shown for today and the experiment it belongs to. */
  datatype TodayArm = TodayArm(arm: string, experiment: Experiment)

  /** Today's arm: only when the first running experiment has an id and an assignment
      dated today. */
  function ArmToday(exps: seq<Experiment>, assignments: seq<ArmAssignment>, today: Day): (r: Option<TodayArm>)
    ensures r.Some? ==> ActiveExperiment(exps, today) == Some(r.value.experiment)
    ensures r.Some? ==> r.value.experiment.id != ""
    ensures r.Some? ==> exists i :: 0 <= i < |assignments| && assignments[i].experimentId == r.value.experiment.id
                                    && assignments[i].date == today && assignments[i].arm == r.value.arm
    ensures r.None? <==> match ActiveExperiment(exps, today)
                         case None => true
                         case Some(e) => e.id == "" || AssignmentOn(assignments, e.id, today).None?
  {
    match ActiveExperiment(exps, today)
    case None => None
    case Some(e) =>
      if e.id == "" then None
      else match AssignmentOn(assignments, e.id, today)
        case None => None
        case Some(a) => Some(TodayArm(a.arm, e))
  }

  /** The two pages' logic agrees when given the same lists: over a list holding a
      created experiment and its schedule, today's arm on every day of the block is the
      arm the schedule gave that day. The application itself stores created experiments
      locally while the dashboard reads the remote store, so it never joins the two. */
  lemma ArmTodayOfCreatedExperiment(d: Draft, id: Id, others: seq<ArmAssignment>, today: Day)
    requires id != "" && Create(d, id).Success?
    requires d.start.Some? && d.start.value <= today <= EndDay(d.start.value, d.duration)
    ensures var c := Create(d, id).value;
            ArmToday([c.experiment], c.assignments + others, today)
            == Some(TodayArm(ArmOfDay(today - d.start.value, d.duration), c.experiment))
  {
    var c := Create(d, id).value;
    var all := c.assignments + others;
    var k := today - d.start.value;
    assert RunningOn(c.experiment, today);
    assert ActiveExperiment([c.experiment], today) == Some(c.experiment);
    ScheduleFirstOn(c.assignments, others, id, d.start.value, d.duration, today);
  }

  lemma ScheduleFirstOn(sched: seq<ArmAssignment>, others: seq<ArmAssignment>, id: Id, start: Day,
                        duration: Duration, today: Day)
    requires sched == Schedule(id, start, duration)
    requires start <= today <= EndDay(start, duration)
    ensures AssignmentOn(sched + others, id, today)
            == Some(ArmAssignment(id, today, ArmOfDay(today - start, duration)))
  {
    var all := sched + others;
    var k := today - start;
    var r := AssignmentOn(all, id, today);
    assert all[k] == sched[k] == ArmAssignment(id, today, ArmOfDay(k, duration));
    assert r.Some?;
    var i :| 0 <= i < |all| && all[i] == r.value && r.value.experimentId == id && r.value.date == today
             && forall j :: 0 <= j < i ==> !(all[j].experimentId == id && all[j].date == today);
    assert i <= k;
    assert all[i] == sched[i];
  }

  /** Last night's sleep: a dash while there is no entry, the store's placeholder when
      the latest entry has no total, otherwise its `Xh Ym`. */
  function LastTst(sleep: seq<SleepEntry>): (s: string)
    ensures |sleep| == 0 ==> s == EmDash
    ensures |sleep| > 0 && TotalSleepMinutes(sleep[0]).None? ==> s == StorePlaceholder
    ensures |sleep| > 0 && TotalSleepMinutes(sleep[0]).Some? ==>
              s == NatToString(TotalSleepMinutes(sleep[0]).value / 60) + "h "
                   + NatToString(TotalSleepMinutes(sleep[0]).value % 60) + "m"
  {
    if |sleep| == 0 then EmDash else StoreFormatMinutesAsTime(TotalSleepMinutes(sleep[0]))
  }

  /** No entries and an entry without a total show differently. */
  lemma NoEntryShowsOtherThanNoTotal()
    ensures EmDash != StorePlaceholder
  {
    assert |EmDash| == 1 && |StorePlaceholder| == 3;
  }

  /** The latest check-in's score (`sss.toString()`), or a dash while there is none. */
  function LatestSss(checkIns: seq<CheckIn>): (s: string)
    ensures |checkIns| == 0 <==> s == EmDash
    ensures |checkIns| > 0 && checkIns[0].sss >= 0 ==> s == NatToString(checkIns[0].sss)
  {
    if |checkIns| == 0 then EmDash
    else
      var s := IntToString(checkIns[0].sss);
      assert s != EmDash by { IntToStringNotDash(checkIns[0].sss); }
      s
  }

  lemma IntToStringNotDash(n: int)
    ensures IntToString(n) != EmDash
  {
    var s := IntToString(n);
    if n >= 0 {
      assert AllDigits(s) && |s| > 0 && IsDigit(s[0]);
    } else {
      assert s[0] == '-';
    }
  }

  /** What the dashboard shows. */
  datatype Stats7 = Stats7(
    lastTst: string,
    todayNaps: string,
    latestSss: string,
    sss7d: seq<real>,
    tst7d: seq<int>,
    todayArm: Option<TodayArm>)

  /** The seven-day sleepiness series, one value per day of `Last7Days`. */
  function SssWeek(checkIns: seq<CheckIn>, today: Day): (r: seq<real>)
    ensures |r| == 7
    ensures forall i :: 0 <= i < 7 ==> r[i] == DailySss(checkIns, Last7Days(today)[i])
  {
    var days := Last7Days(today);
    seq(7, i requires 0 <= i < 7 => DailySss(checkIns, days[i]))
  }

  /** The seven-day sleep series, one value per day of `Last7Days`. */
  function TstWeek(sleep: seq<SleepEntry>, today: Day): (r: seq<int>)
    ensures |r| == 7
    ensures forall i :: 0 <= i < 7 ==> r[i] == DailyTst(sleep, Last7Days(today)[i])
    ensures forall i :: 0 <= i < 7 ==> 0 <= r[i] < MinutesPerDay
  {
    var days := Last7Days(today);
    seq(7, i requires 0 <= i < 7 => DailyTst(sleep, days[i]))
  }

  /** `loadDashboardData` over the store's lists. */
  function LoadDashboard(sleep: seq<SleepEntry>, naps: seq<Nap>, checkIns: seq<CheckIn>,
                         exps: seq<Experiment>, assignments: seq<ArmAssignment>, today: Day): (v: Stats7)
    ensures |v.sss7d| == 7 && |v.tst7d| == 7
    ensures forall i :: 0 <= i < 7 ==> v.sss7d[i] == DailySss(checkIns, Last7Days(today)[i])
    ensures forall i :: 0 <= i < 7 ==> v.tst7d[i] == DailyTst(sleep, Last7Days(today)[i])
    ensures v.todayNaps == FormatMinutesAsTime(Some(TotalNapMinutes(Within(naps, NapDate, Range(today, today)))))
    ensures v.lastTst == LastTst(sleep) && v.latestSss == LatestSss(checkIns)
    ensures v.todayArm == ArmToday(exps, assignments, today)
  {
    TodayNapsAgreeWithSummary(naps, today);
    Stats7(
      LastTst(sleep),
      StoreFormatMinutesAsTime(Some(TodayNapMinutes(naps, today))),
      LatestSss(checkIns),
      SssWeek(checkIns, today),
      TstWeek(sleep, today),
      ArmToday(exps, assignments, today))
  }
}
