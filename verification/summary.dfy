/** `generateSummary` of `src/pages/WeeklySummary.tsx`: the weekly snapshot of sleep,
    sleepiness and naps over an inclusive date range, and the comparison of the two arms
    of the first experiment that overlaps the range. Records come from the local store
    (`src/lib/db.ts`); dates are day numbers, which order like the page's ISO text. */
module Summary {
  import opened Optional
  import opened Calendar
  import opened Clock
  import opened Records
  import opened Metrics
  import opened Stats

  /** The inclusive range `startDate ..= endDate` chosen on the page. */
  datatype Range = Range(start: Day, end: Day) {
    predicate Contains(d: Day) {
      start <= d && d <= end
    }
  }

  function SleepDate(e: SleepEntry): Day {
    e.date
  }

  function NapDate(n: Nap): Day {
    n.date
  }

  /** The date part of a check-in's timestamp (`timestamp.split('T')[0]`). */
  function CheckInDate(c: CheckIn): Day {
    c.at.date
  }

  function Quality(e: SleepEntry): int {
    e.quality
  }

  function Sss(c: CheckIn): int {
    c.sss
  }

  /** The test `date >= startDate && date <= endDate` on a record. */
  function DatedWithin<T>(date: T -> Day, range: Range): T -> bool {
    x => range.Contains(date(x))
  }

  /** The records dated within the range, in stored order. */
  function Within<T(!new)>(xs: seq<T>, date: T -> Day, range: Range): (r: seq<T>)
    ensures forall i :: 0 <= i < |r| ==> range.Contains(date(r[i]))
    ensures forall x :: multiset(r)[x] == if range.Contains(date(x)) then multiset(xs)[x] else 0
  {
    FilterKeepsExactly(xs, DatedWithin(date, range));
    Filter(xs, DatedWithin(date, range))
  }

  lemma WithinShrinks<T(!new)>(xs: seq<T>, date: T -> Day, range: Range)
    ensures |Within(xs, date, range)| <= |xs|
  {
    var r := Within(xs, date, range);
    assert multiset(r) <= multiset(xs);
    assert |r| == |multiset(r)| <= |multiset(xs)| == |xs|;
  }

  // ----- sleep -----

  /** Mean total sleep over the nights that have one; 0 when none has. A mean of
      durations shorter than a day is itself shorter than a day. */
  function AvgTst(sleep: seq<SleepEntry>): (r: real)
    ensures var tst := Somes(Map(sleep, TotalSleepMinutes));
            |tst| > 0 ==> r == Sum(tst) as real / |tst| as real
    ensures Somes(Map(sleep, TotalSleepMinutes)) == [] ==> r == 0.0
    ensures 0.0 <= r <= (MinutesPerDay - 1) as real
    ensures (forall i :: 0 <= i < |sleep| ==> TotalSleepMinutes(sleep[i]).None?) ==> r == 0.0
  {
    var tst := Somes(Map(sleep, TotalSleepMinutes));
    TstValuesWithinDay(sleep);
    if |tst| > 0 then
      MeanBounds(tst, 0, MinutesPerDay - 1);
      Mean(tst)
    else Mean(tst)
  }

  /** Every total sleep time a list of nights yields is shorter than a day. */
  lemma TstValuesWithinDay(sleep: seq<SleepEntry>)
    ensures var tst := Somes(Map(sleep, TotalSleepMinutes));
            forall k :: 0 <= k < |tst| ==> 0 <= tst[k] <= MinutesPerDay - 1
  {
    var tst := Somes(Map(sleep, TotalSleepMinutes));
    forall k | 0 <= k < |tst| ensures 0 <= tst[k] <= MinutesPerDay - 1 {
      var j :| 0 <= j < |sleep| && Map(sleep, TotalSleepMinutes)[j] == Some(tst[k]);
      assert TotalSleepMinutes(sleep[j]) == Some(tst[k]);
    }
  }

  /** Mean sleep quality; 0 for no nights. Qualities on the form's 1..5 scale keep the
      mean on that scale. */
  function AvgQuality(sleep: seq<SleepEntry>): (r: real)
    ensures |sleep| == 0 ==> r == 0.0
    ensures |sleep| > 0 ==> r == Sum(Map(sleep, Quality)) as real / |sleep| as real
    ensures |sleep| > 0 && (forall i :: 0 <= i < |sleep| ==> 1 <= sleep[i].quality <= 5)
            ==> 1.0 <= r <= 5.0
  {
    var q := Map(sleep, Quality);
    if |sleep| > 0 && forall i :: 0 <= i < |sleep| ==> 1 <= sleep[i].quality <= 5 then
      MeanBounds(q, 1, 5);
      Mean(q)
    else Mean(q)
  }

  // ----- sleepiness -----

  /** Mean Stanford Sleepiness Scale score; 0 for no check-ins. Scores on the scale's
      1..7 keep the mean on it. */
  function AvgSss(checkIns: seq<CheckIn>): (r: real)
    ensures |checkIns| == 0 ==> r == 0.0
    ensures |checkIns| > 0 ==> r == Sum(Map(checkIns, Sss)) as real / |checkIns| as real
    ensures |checkIns| > 0 && (forall i :: 0 <= i < |checkIns| ==> 1 <= checkIns[i].sss <= 7)
            ==> 1.0 <= r <= 7.0
  {
    var s := Map(checkIns, Sss);
    if |checkIns| > 0 && forall i :: 0 <= i < |checkIns| ==> 1 <= checkIns[i].sss <= 7 then
      MeanBounds(s, 1, 7);
      Mean(s)
    else Mean(s)
  }

  function InContext(context: string): CheckIn -> bool {
    (c: CheckIn) => c.context == context
  }

  /** The mean score of the check-ins made in one context (`context === 'Morning'`, ...);
      0 when there is none in that context. */
  function ContextSss(checkIns: seq<CheckIn>, context: string): (r: real)
    ensures (forall i :: 0 <= i < |checkIns| ==> checkIns[i].context != context) ==> r == 0.0
    ensures var on := Filter(checkIns, InContext(context));
            |on| > 0 ==> r == Sum(Map(on, Sss)) as real / |on| as real
    ensures var on := Filter(checkIns, InContext(context));
            forall i :: 0 <= i < |on| ==> on[i].context == context
  {
    FilterEmpty(checkIns, InContext(context));
    AvgSss(Filter(checkIns, InContext(context)))
  }

  // ----- naps -----

  /** Sum of the durations of the naps that have one, negative durations included. */
  function TotalNapMinutes(naps: seq<Nap>): int {
    Sum(Somes(Map(naps, NapDuration)))
  }

  /** The nap total of two lists of naps adds up. */
  lemma {:induction false} NapTotalAppend(xs: seq<Nap>, ys: seq<Nap>)
    ensures TotalNapMinutes(xs + ys) == TotalNapMinutes(xs) + TotalNapMinutes(ys)
  {
    assert Map(xs + ys, NapDuration) == Map(xs, NapDuration) + Map(ys, NapDuration);
    SomesAppend(Map(xs, NapDuration), Map(ys, NapDuration));
    SumAppend(Somes(Map(xs, NapDuration)), Somes(Map(ys, NapDuration)));
  }

  lemma {:induction false} SomesAppend<T>(xs: seq<Option<T>>, ys: seq<Option<T>>)
    ensures Somes(xs + ys) == Somes(xs) + Somes(ys)
    decreases |xs|
  {
    if |xs| > 0 {
      assert (xs + ys)[1..] == xs[1..] + ys;
      SomesAppend(xs[1..], ys);
    } else {
      assert xs + ys == ys;
    }
  }

  /** Naps that all end no earlier on the clock than they start never add up to a
      negative total. */
  lemma NapTotalNonNegative(naps: seq<Nap>)
    requires forall i :: 0 <= i < |naps| && naps[i].start != "" && naps[i].end != "" ==>
               ClockMinutes(naps[i].start) <= ClockMinutes(naps[i].end)
    ensures TotalNapMinutes(naps) >= 0
  {
    var ds := Somes(Map(naps, NapDuration));
    forall k | 0 <= k < |ds| ensures 0 <= ds[k] {
      var j :| 0 <= j < |naps| && Map(naps, NapDuration)[j] == Some(ds[k]);
      assert NapDuration(naps[j]) == Some(ds[k]);
    }
    SumBounds(ds, 0, MinutesPerDay);
  }

  /** A single nap from 23:50 to 00:10 makes the week's nap total -1420 minutes. */
  lemma MidnightNapMakesTotalNegative()
    ensures TotalNapMinutes([Nap(0, FormatClock(23 * 60 + 50), FormatClock(10), false, 3, None)])
            == -1420
  {
    var n := Nap(0, FormatClock(23 * 60 + 50), FormatClock(10), false, 3, None);
    NapFromTenToMidnight();
    assert Map([n], NapDuration) == [Some(-1420)];
    assert [Some(-1420)][1..] == [];
    assert Somes([Some(-1420)]) == [-1420];
    assert [-1420][..0] == [];
  }

  // ----- experiment -----

  /** `exp.end_date < startDate`; with no end date the comparison is false. */
  predicate EndsBefore(e: Experiment, d: Day) {
    e.end.Some? && e.end.value < d
  }

  /** `!(exp.end_date < startDate || exp.start_date > endDate)`. */
  predicate Overlaps(e: Experiment, range: Range) {
    !(EndsBefore(e, range.start) || e.start > range.end)
  }

  function OverlapsRange(range: Range): Experiment -> bool {
    e => Overlaps(e, range)
  }

  /** An experiment with an end date overlaps a non-empty range exactly when some day
      lies in both. */
  lemma OverlapsIffSharedDay(e: Experiment, range: Range)
    requires e.end.Some? && e.start <= e.end.value && range.start <= range.end
    ensures Overlaps(e, range) <==> exists d :: range.Contains(d) && e.start <= d <= e.end.value
  {
    if Overlaps(e, range) {
      var d := if e.start < range.start then range.start else e.start;
      assert range.Contains(d) && e.start <= d <= e.end.value;
    }
  }

  /** An experiment with no end date overlaps every range that does not end before it
      starts. */
  lemma OpenEndedOverlaps(e: Experiment, range: Range)
    requires e.end.None?
    ensures Overlaps(e, range) <==> e.start <= range.end
  {
  }

  /** `overlapping[0]`: the first stored experiment that overlaps the range. */
  function FirstOverlapping(exps: seq<Experiment>, range: Range): (r: Option<Experiment>)
    ensures r.None? <==> forall i :: 0 <= i < |exps| ==> !Overlaps(exps[i], range)
    ensures r.Some? ==>
      exists i :: 0 <= i < |exps| && exps[i] == r.value && Overlaps(exps[i], range)
                  && forall j :: 0 <= j < i ==> !Overlaps(exps[j], range)
  {
    FilterEmpty(exps, OverlapsRange(range));
    var overlapping := Filter(exps, OverlapsRange(range));
    if |overlapping| > 0 then
      FilterHead(exps, OverlapsRange(range));
      Some(overlapping[0])
    else None
  }

  function OnArm(id: Id, arm: string, range: Range): ArmAssignment -> bool {
    (a: ArmAssignment) => a.experimentId == id && a.arm == arm && range.Contains(a.date)
  }

  function AssignmentDate(a: ArmAssignment): Day {
    a.date
  }

  /** The dates within the range that the experiment assigns to `arm`. */
  function ArmDates(assignments: seq<ArmAssignment>, id: Id, arm: string, range: Range): (r: seq<Day>)
    ensures forall d :: d in r <==>
      exists i :: 0 <= i < |assignments| && assignments[i].experimentId == id
                  && assignments[i].arm == arm && assignments[i].date == d && range.Contains(d)
  {
    ArmDatesMembers(assignments, id, arm, range);
    Map(Filter(assignments, OnArm(id, arm, range)), AssignmentDate)
  }

  lemma ArmDatesMembers(assignments: seq<ArmAssignment>, id: Id, arm: string, range: Range)
    ensures var r := Map(Filter(assignments, OnArm(id, arm, range)), AssignmentDate);
      forall d :: d in r <==>
        exists i :: 0 <= i < |assignments| && assignments[i].experimentId == id
                    && assignments[i].arm == arm && assignments[i].date == d && range.Contains(d)
  {
    var chosen := Filter(assignments, OnArm(id, arm, range));
    var r := Map(chosen, AssignmentDate);
    forall d | d in r
      ensures exists i :: 0 <= i < |assignments| && assignments[i].experimentId == id
                          && assignments[i].arm == arm && assignments[i].date == d && range.Contains(d)
    {
      var k :| 0 <= k < |r| && r[k] == d;
      assert OnArm(id, arm, range)(chosen[k]) && chosen[k] in assignments;
    }
    forall i | 0 <= i < |assignments| && assignments[i].experimentId == id
               && assignments[i].arm == arm && range.Contains(assignments[i].date)
      ensures assignments[i].date in r
    {
      assert OnArm(id, arm, range)(assignments[i]);
      var k :| 0 <= k < |chosen| && chosen[k] == assignments[i];
      assert r[k] == assignments[i].date;
    }
  }

  function DatedOn<T>(date: T -> Day, dates: seq<Day>): T -> bool {
    x => date(x) in dates
  }

  function MiddayOn(dates: seq<Day>): CheckIn -> bool {
    (c: CheckIn) => c.context == Midday && c.at.date in dates
  }

  /** One arm's value of the experiment's metric: the mean midday score on the arm's
      dates, the mean sleep quality of its nights, or otherwise the mean total sleep of
      its nights that have one. 0 when nothing qualifies. */
  function ArmValue(metric: string, sleep: seq<SleepEntry>, checkIns: seq<CheckIn>, dates: seq<Day>): (r: real)
    ensures metric == MetricMiddaySss ==> r == AvgSss(Filter(checkIns, MiddayOn(dates)))
    ensures metric != MetricMiddaySss && metric == MetricSleepQuality ==>
              r == AvgQuality(Filter(sleep, DatedOn(SleepDate, dates)))
    ensures metric != MetricMiddaySss && metric != MetricSleepQuality ==>
              r == AvgTst(Filter(sleep, DatedOn(SleepDate, dates)))
    ensures metric == MetricMiddaySss
            && (forall i :: 0 <= i < |checkIns| ==> checkIns[i].context != Midday || checkIns[i].at.date !in dates)
            ==> r == 0.0
    ensures metric != MetricMiddaySss && (forall i :: 0 <= i < |sleep| ==> sleep[i].date !in dates) ==> r == 0.0
    ensures metric != MetricMiddaySss && metric != MetricSleepQuality
            && (forall i :: 0 <= i < |sleep| && sleep[i].date in dates ==> TotalSleepMinutes(sleep[i]).None?)
            ==> r == 0.0
    ensures |dates| == 0 ==> r == 0.0
    ensures metric != MetricMiddaySss && metric != MetricSleepQuality ==>
              0.0 <= r <= (MinutesPerDay - 1) as real
  {
    if metric == MetricMiddaySss then
      FilterEmpty(checkIns, MiddayOn(dates));
      AvgSss(Filter(checkIns, MiddayOn(dates)))
    else
      FilterEmpty(sleep, DatedOn(SleepDate, dates));
      var nights := Filter(sleep, DatedOn(SleepDate, dates));
      if metric == MetricSleepQuality then AvgQuality(nights)
      else
        NightsWithoutTotal(sleep, dates);
        AvgTst(nights)
  }

  /** The nights on the arm's dates are nights of the list, so when none of those has a
      total, none of the filtered ones has. */
  lemma NightsWithoutTotal(sleep: seq<SleepEntry>, dates: seq<Day>)
    ensures (forall i :: 0 <= i < |sleep| && sleep[i].date in dates ==> TotalSleepMinutes(sleep[i]).None?)
            ==> var nights := Filter(sleep, DatedOn(SleepDate, dates));
                forall k :: 0 <= k < |nights| ==> TotalSleepMinutes(nights[k]).None?
  {
    if forall i :: 0 <= i < |sleep| && sleep[i].date in dates ==> TotalSleepMinutes(sleep[i]).None? {
      var nights := Filter(sleep, DatedOn(SleepDate, dates));
      forall k | 0 <= k < |nights| ensures TotalSleepMinutes(nights[k]).None? {
        assert DatedOn(SleepDate, dates)(nights[k]) && nights[k] in sleep;
        var i :| 0 <= i < |sleep| && sleep[i] == nights[k];
      }
    }
  }

  /** Records dated on none of the arm's dates leave its value unchanged. */
  lemma ArmValueIgnoresOtherDays(metric: string, sleep: seq<SleepEntry>, moreSleep: seq<SleepEntry>,
                                 checkIns: seq<CheckIn>, moreCheckIns: seq<CheckIn>, dates: seq<Day>)
    requires forall i :: 0 <= i < |moreSleep| ==> moreSleep[i].date !in dates
    requires forall i :: 0 <= i < |moreCheckIns| ==> moreCheckIns[i].at.date !in dates
    ensures ArmValue(metric, sleep + moreSleep, checkIns + moreCheckIns, dates)
            == ArmValue(metric, sleep, checkIns, dates)
  {
    FilterAppend(sleep, moreSleep, DatedOn(SleepDate, dates));
    FilterEmpty(moreSleep, DatedOn(SleepDate, dates));
    assert Filter(sleep + moreSleep, DatedOn(SleepDate, dates)) == Filter(sleep, DatedOn(SleepDate, dates));
    FilterAppend(checkIns, moreCheckIns, MiddayOn(dates));
    FilterEmpty(moreCheckIns, MiddayOn(dates));
    assert Filter(checkIns + moreCheckIns, MiddayOn(dates)) == Filter(checkIns, MiddayOn(dates));
  }

  function RealAbs(x: real): real {
    if x < 0.0 then -x else x
  }

  /** The observation line: the arm with the higher value when the two differ by at
      least 0.5 (`diff >= 0.5 || diff >= 45`, whose second test can never decide). */
  function Observation(valA: real, valB: real): (r: Option<string>)
    ensures r.Some? <==> RealAbs(valA - valB) >= 0.5
    ensures r == Some(ArmA) <==> valA - valB >= 0.5
    ensures r == Some(ArmB) <==> valB - valA >= 0.5
  {
    var diff := RealAbs(valA - valB);
    if diff >= 0.5 || diff >= 45.0 then Some(if valA > valB then ArmA else ArmB) else None
  }

  /** Swapping the arms' values swaps the arm the observation names. */
  lemma ObservationSwapsWithArms(valA: real, valB: real)
    ensures Observation(valA, valB) == Some(ArmA) <==> Observation(valB, valA) == Some(ArmB)
    ensures Observation(valA, valB).None? <==> Observation(valB, valA).None?
  {
  }

  /** Arm A nights of 420 and 450 minutes against arm B nights of 480 and 500: 435
      against 490, in favour of B. */
  lemma TstExampleFavoursB()
    ensures Mean([420, 450]) == 435.0 && Mean([480, 500]) == 490.0
    ensures Observation(Mean([420, 450]), Mean([480, 500])) == Some(ArmB)
  {
    assert Sum([420, 450]) == 870 by { assert [420, 450][..1] == [420]; }
    assert Sum([480, 500]) == 980 by { assert [480, 500][..1] == [480]; }
  }

  /** Even for a metric in minutes, a gap of a single minute yields an observation. */
  lemma OneMinuteGapIsObserved()
    ensures Observation(435.0, 436.0) == Some(ArmB)
  {
  }

  // ----- the snapshot -----

  /** The comparison of the overlapping experiment's arms. */
  datatype ArmComparison = ArmComparison(experiment: Experiment, valA: real, valB: real, observation: Option<string>)

  datatype Snapshot = Snapshot(
    avgTst: real,
    avgQuality: real,
    avgSss: real,
    avgMorning: real,
    avgMidday: real,
    avgEvening: real,
    napCount: nat,
    totalNapMinutes: int,
    comparison: Option<ArmComparison>)

  /** `generateSummary` without its text: the averages over the records in the range and
      the arm comparison of the first overlapping experiment, whose assignments are those
      stored under its id. */
  function GenerateSummary(sleep: seq<SleepEntry>, checkIns: seq<CheckIn>, naps: seq<Nap>,
                           exps: seq<Experiment>, assignments: seq<ArmAssignment>, range: Range): (s: Snapshot)
    ensures 0.0 <= s.avgTst <= (MinutesPerDay - 1) as real
    ensures s.napCount <= |naps|
    ensures s.napCount == |Within(naps, NapDate, range)|
    ensures s.totalNapMinutes == TotalNapMinutes(Within(naps, NapDate, range))
    ensures s.avgTst == AvgTst(Within(sleep, SleepDate, range))
    ensures s.avgQuality == AvgQuality(Within(sleep, SleepDate, range))
    ensures s.avgSss == AvgSss(Within(checkIns, CheckInDate, range))
    ensures s.avgMorning == ContextSss(Within(checkIns, CheckInDate, range), Morning)
    ensures s.avgMidday == ContextSss(Within(checkIns, CheckInDate, range), Midday)
    ensures s.avgEvening == ContextSss(Within(checkIns, CheckInDate, range), Evening)
    ensures s.comparison.None? <==> forall i :: 0 <= i < |exps| ==> !Overlaps(exps[i], range)
    ensures s.comparison.Some? ==>
      s.comparison.value == Compare(s.comparison.value.experiment, sleep, checkIns, assignments, range)
    ensures s.comparison.Some? ==>
      exists i :: 0 <= i < |exps| && exps[i] == s.comparison.value.experiment && Overlaps(exps[i], range)
                  && forall j :: 0 <= j < i ==> !Overlaps(exps[j], range)
  {
    var sleepIn := Within(sleep, SleepDate, range);
    var checkInsIn := Within(checkIns, CheckInDate, range);
    var napsIn := Within(naps, NapDate, range);
    WithinShrinks(naps, NapDate, range);
    Snapshot(
      AvgTst(sleepIn),
      AvgQuality(sleepIn),
      AvgSss(checkInsIn),
      ContextSss(checkInsIn, Morning),
      ContextSss(checkInsIn, Midday),
      ContextSss(checkInsIn, Evening),
      |napsIn|,
      TotalNapMinutes(napsIn),
      match FirstOverlapping(exps, range)
      case None => None
      case Some(e) => Some(Compare(e, sleep, checkIns, assignments, range)))
  }

  /** The arm values of one experiment over the range, and the observation they give. */
  function Compare(e: Experiment, sleep: seq<SleepEntry>, checkIns: seq<CheckIn>,
                   assignments: seq<ArmAssignment>, range: Range): (c: ArmComparison)
    ensures c.experiment == e
    ensures c.valA == ArmValue(e.metric, Within(sleep, SleepDate, range), Within(checkIns, CheckInDate, range),
                               ArmDates(assignments, e.id, ArmA, range))
    ensures c.valB == ArmValue(e.metric, Within(sleep, SleepDate, range), Within(checkIns, CheckInDate, range),
                               ArmDates(assignments, e.id, ArmB, range))
    ensures c.observation == Observation(c.valA, c.valB)
    ensures e.metric != MetricMiddaySss && e.metric != MetricSleepQuality ==>
              0.0 <= c.valA <= (MinutesPerDay - 1) as real && 0.0 <= c.valB <= (MinutesPerDay - 1) as real
  {
    var sleepIn := Within(sleep, SleepDate, range);
    var checkInsIn := Within(checkIns, CheckInDate, range);
    var valA := ArmValue(e.metric, sleepIn, checkInsIn, ArmDates(assignments, e.id, ArmA, range));
    var valB := ArmValue(e.metric, sleepIn, checkInsIn, ArmDates(assignments, e.id, ArmB, range));
    ArmComparison(e, valA, valB, Observation(valA, valB))
  }
}
