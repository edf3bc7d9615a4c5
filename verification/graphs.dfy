/** The chart data of `src/pages/Graphs.tsx`: the date range of a time-range button, and
    in `loadData` the check-in rows (one per date, mean score and label counts), the
    sleep and nap rows (one per record) and the medication rows (intake counts per date
    and medication). Each chart's rows are sorted by their `Mon D` label text. */
module Graphs {
  import opened Optional
  import opened Calendar
  import opened Clock
  import opened Records
  import opened Metrics
  import opened Stats
  import opened Sorting
  import opened Store
  import opened Summary

  // ----- the date range -----

  datatype TimeRange = OneDay | TwoDays | ThreeDays | SevenDays | ThirtyDays | SixMonths | OneYear | AllTime

  /** `getDateRange`: the range ends today; its start is a number of days back, six
      months back (`setMonth`), a year back or in the year 2000 (`setFullYear`). */
  function DateRange(tr: TimeRange, today: CivilDate): (r: Range)
    requires Valid(today)
    ensures r.end == ToDay(today)
    ensures tr == OneDay ==> r.start == ToDay(today) - 1
    ensures tr == TwoDays ==> r.start == ToDay(today) - 2
    ensures tr == ThreeDays ==> r.start == ToDay(today) - 3
    ensures tr == SevenDays ==> r.start == ToDay(today) - 7
    ensures tr == ThirtyDays ==> r.start == ToDay(today) - 30
    ensures tr == SixMonths ==> ToDay(today) - 184 <= r.start <= ToDay(today) - 181
    ensures tr == OneYear ==> ToDay(today) - 366 <= r.start <= ToDay(today) - 365
    ensures tr == AllTime ==> FromDay(r.start) == CivilDate(2000, today.month, today.day)
    ensures tr != AllTime || 2000 <= today.year ==> r.start <= r.end
  {
    var end := ToDay(today);
    match tr
    case OneDay => Range(end - 1, end)
    case TwoDays => Range(end - 2, end)
    case ThreeDays => Range(end - 3, end)
    case SevenDays => Range(end - 7, end)
    case ThirtyDays => Range(end - 30, end)
    case SixMonths =>
      SixMonthsBack(today);
      Range(ShiftMonths(today, -6), end)
    case OneYear =>
      OneYearBack(today);
      Range(WithYear(today, today.year - 1), end)
    case AllTime =>
      InYear2000(today);
      Range(WithYear(today, 2000), end)
  }

  /** `setFullYear(2000)` keeps month and day, since 2000 has a February 29. */
  lemma InYear2000(c: CivilDate)
    requires Valid(c)
    ensures FromDay(WithYear(c, 2000)) == CivilDate(2000, c.month, c.day)
    ensures 2000 <= c.year ==> WithYear(c, 2000) <= ToDay(c)
  {
    var moved := CivilDate(2000, c.month, c.day);
    assert Valid(moved);
    assert WithYear(c, 2000) == ToDay(moved);
    FromDayToDay(moved);
    if 2000 <= c.year {
      WithEarlierYear(c, 2000);
    }
  }

  /** A year back keeps month and day whenever that date exists in the year before. */
  lemma YearBackKeepsDate(today: CivilDate)
    requires Valid(today) && Valid(CivilDate(today.year - 1, today.month, today.day))
    ensures FromDay(DateRange(OneYear, today).start) == CivilDate(today.year - 1, today.month, today.day)
  {
    var moved := CivilDate(today.year - 1, today.month, today.day);
    assert DateRange(OneYear, today).start == ToDay(moved);
    FromDayToDay(moved);
  }

  // ----- grouping by date -----

  /** The days of `ds`, each once, in order of first appearance (the insertion order
      of a JavaScript `Map`). */
  function DistinctDays(ds: seq<Day>): (r: seq<Day>)
    ensures forall d :: d in r <==> d in ds
    ensures Distinct(r)
    ensures |r| <= |ds|
  {
    if |ds| == 0 then []
    else
      var rest := DistinctDays(ds[..|ds| - 1]);
      if ds[|ds| - 1] in rest then rest else rest + [ds[|ds| - 1]]
  }

  /** The sort key of a chart row: the `Mon D` label of its day. */
  function LabelOf<R>(dayOf: R -> Day): R -> string {
    x => DayLabel(dayOf(x))
  }

  /** One row per distinct day of `days`, built by `rowOf`, sorted by label. */
  function ChartRows<R(==)>(days: seq<Day>, rowOf: Day -> R, dayOf: R -> Day): (r: seq<R>)
    requires forall d :: dayOf(rowOf(d)) == d
    ensures forall i, j :: 0 <= i < j < |r| ==> TextLe(DayLabel(dayOf(r[i])), DayLabel(dayOf(r[j])))
    ensures forall i :: 0 <= i < |r| ==> r[i] == rowOf(dayOf(r[i])) && dayOf(r[i]) in days
    ensures forall d :: d in days ==> exists i :: 0 <= i < |r| && dayOf(r[i]) == d
    ensures forall i, j :: 0 <= i < j < |r| ==> dayOf(r[i]) != dayOf(r[j])
    ensures |r| <= |days|
  {
    TextLeIsTotalPreorder();
    var unsorted := Map(DistinctDays(days), rowOf);
    var r := SortBy(unsorted, LabelOf(dayOf), TextLe);
    ChartRowsFacts(days, rowOf, dayOf, unsorted, r);
    r
  }

  lemma ChartRowsFacts<R>(days: seq<Day>, rowOf: Day -> R, dayOf: R -> Day, unsorted: seq<R>, r: seq<R>)
    requires forall d :: dayOf(rowOf(d)) == d
    requires unsorted == Map(DistinctDays(days), rowOf)
    requires multiset(r) == multiset(unsorted)
    ensures forall i :: 0 <= i < |r| ==> r[i] == rowOf(dayOf(r[i])) && dayOf(r[i]) in days
    ensures forall d :: d in days ==> exists i :: 0 <= i < |r| && dayOf(r[i]) == d
    ensures forall i, j :: 0 <= i < j < |r| ==> dayOf(r[i]) != dayOf(r[j])
  {
    var ds := DistinctDays(days);
    forall i | 0 <= i < |r| ensures r[i] == rowOf(dayOf(r[i])) && dayOf(r[i]) in days {
      assert r[i] in multiset(unsorted);
      var k :| 0 <= k < |unsorted| && unsorted[k] == r[i];
      assert dayOf(r[i]) == ds[k];
    }
    forall d | d in days ensures exists i :: 0 <= i < |r| && dayOf(r[i]) == d {
      var k :| 0 <= k < |ds| && ds[k] == d;
      assert unsorted[k] in multiset(r);
      var i :| 0 <= i < |r| && r[i] == unsorted[k];
      assert dayOf(r[i]) == d;
    }
    assert Distinct(unsorted) by {
      forall i, j | 0 <= i < j < |unsorted| ensures unsorted[i] != unsorted[j] {
        assert dayOf(unsorted[i]) == ds[i] && dayOf(unsorted[j]) == ds[j];
      }
    }
    DistinctPermutation(r, unsorted);
  }

  /** The records of one day. */
  function OnDay<T>(date: T -> Day, d: Day): T -> bool {
    x => date(x) == d
  }

  /** Some record of `xs` is dated `d`: the dates that get a chart row. */
  predicate HasRecordOn<T>(xs: seq<T>, date: T -> Day, d: Day) {
    exists j :: 0 <= j < |xs| && date(xs[j]) == d
  }

  // ----- check-ins -----

  /** `entry.dataPoints.get(dp) || 0`: how often the tag is listed by the check-ins. */
  function LabelCount(checkIns: seq<CheckIn>, tag: string): nat {
    if |checkIns| == 0 then 0
    else LabelCount(checkIns[..|checkIns| - 1], tag) + multiset(checkIns[|checkIns| - 1].labels)[tag]
  }

  function Lists(tag: string): CheckIn -> bool {
    (c: CheckIn) => tag in c.labels
  }

  /** When no check-in lists a tag twice, its count is the number of check-ins
      listing it. */
  lemma {:induction false} LabelCountListing(checkIns: seq<CheckIn>, tag: string)
    requires forall i :: 0 <= i < |checkIns| ==> Distinct(checkIns[i].labels)
    ensures LabelCount(checkIns, tag) == Count(checkIns, Lists(tag))
    decreases |checkIns|
  {
    if |checkIns| > 0 {
      var last := checkIns[|checkIns| - 1];
      LabelCountListing(checkIns[..|checkIns| - 1], tag);
      DistinctOnce(last.labels);
      assert tag in last.labels <==> tag in multiset(last.labels);
    }
  }

  /** Check-ins read from the store carry no labels, so every tag column is 0. */
  lemma StoredCheckInsCountNoLabels(rows: seq<CheckInRow>, tag: string)
    ensures LabelCount(Map(rows, MapCheckInRow), tag) == 0
  {
    var cs := Map(rows, MapCheckInRow);
    StoredCheckInsHaveNoLabels(rows);
    NoLabelsNoCounts(cs, tag);
  }

  lemma {:induction false} NoLabelsNoCounts(checkIns: seq<CheckIn>, tag: string)
    requires forall i :: 0 <= i < |checkIns| ==> checkIns[i].labels == []
    ensures LabelCount(checkIns, tag) == 0
    decreases |checkIns|
  {
    if |checkIns| > 0 {
      NoLabelsNoCounts(checkIns[..|checkIns| - 1], tag);
    }
  }

  /** A check-in chart row: its day, the mean score of the day's check-ins, and one
      count per selected tag. */
  datatype CheckInPoint = CheckInPoint(day: Day, avgSss: real, labelCounts: seq<nat>)

  function CheckInPointDay(p: CheckInPoint): Day {
    p.day
  }

  /** The row of day `d` for the check-ins given. */
  function CheckInPointOf(checkIns: seq<CheckIn>, d: Day, selected: seq<string>): (p: CheckInPoint)
    ensures p.day == d
    ensures var on := Filter(checkIns, OnDay(CheckInDate, d));
            p.avgSss == AvgSss(on) && p.labelCounts == LabelCounts(on, selected)
  {
    var on := Filter(checkIns, OnDay(CheckInDate, d));
    CheckInPoint(d, AvgSss(on), LabelCounts(on, selected))
  }

  /** `result[dp] = data.dataPoints.get(dp) || 0` for each selected label. */
  function LabelCounts(checkIns: seq<CheckIn>, selected: seq<string>): (counts: seq<nat>)
    ensures |counts| == |selected|
    ensures forall k :: 0 <= k < |selected| ==> counts[k] == LabelCount(checkIns, selected[k])
  {
    seq(|selected|, k requires 0 <= k < |selected| => LabelCount(checkIns, selected[k]))
  }

  /** The check-in chart: one row per date in range that has a check-in, holding that
      date's mean score and label counts, sorted by label. */
  function CheckInRows(checkIns: seq<CheckIn>, range: Range, selected: seq<string>): (r: seq<CheckInPoint>)
    ensures forall i :: 0 <= i < |r| ==>
              range.Contains(r[i].day) && r[i] == CheckInPointOf(checkIns, r[i].day, selected)
    ensures forall j :: 0 <= j < |checkIns| && range.Contains(checkIns[j].at.date) ==>
              exists i :: 0 <= i < |r| && r[i].day == checkIns[j].at.date
    ensures forall i :: 0 <= i < |r| ==> HasRecordOn(checkIns, CheckInDate, r[i].day)
    ensures forall i, j :: 0 <= i < j < |r| ==> r[i].day != r[j].day
    ensures forall i, j :: 0 <= i < j < |r| ==> TextLe(DayLabel(r[i].day), DayLabel(r[j].day))
    ensures |checkIns| == 0 ==> r == []
    ensures (forall j :: 0 <= j < |checkIns| ==> !range.Contains(checkIns[j].at.date)) ==> r == []
  {
    var inRange := Within(checkIns, CheckInDate, range);
    var days := Map(inRange, CheckInDate);
    var r := ChartRows(days, d => CheckInPointOf(inRange, d, selected), CheckInPointDay);
    CheckInRowsOfAll(checkIns, range, selected, r);
    r
  }

  lemma CheckInRowsOfAll(checkIns: seq<CheckIn>, range: Range, selected: seq<string>, r: seq<CheckInPoint>)
    requires var inRange := Within(checkIns, CheckInDate, range);
      forall i :: 0 <= i < |r| ==>
        r[i] == CheckInPointOf(inRange, r[i].day, selected) && r[i].day in Map(inRange, CheckInDate)
    requires var inRange := Within(checkIns, CheckInDate, range);
      forall d :: d in Map(inRange, CheckInDate) ==> exists i :: 0 <= i < |r| && r[i].day == d
    ensures forall i :: 0 <= i < |r| ==>
              range.Contains(r[i].day) && r[i] == CheckInPointOf(checkIns, r[i].day, selected)
    ensures forall j :: 0 <= j < |checkIns| && range.Contains(checkIns[j].at.date) ==>
              exists i :: 0 <= i < |r| && r[i].day == checkIns[j].at.date
    ensures forall i :: 0 <= i < |r| ==> HasRecordOn(checkIns, CheckInDate, r[i].day)
  {
    var inRange := Within(checkIns, CheckInDate, range);
    var days := Map(inRange, CheckInDate);
    forall i | 0 <= i < |r|
      ensures range.Contains(r[i].day) && r[i] == CheckInPointOf(checkIns, r[i].day, selected)
    {
      var k :| 0 <= k < |inRange| && days[k] == r[i].day;
      assert range.Contains(CheckInDate(inRange[k]));
      FilterNarrower(checkIns, DatedWithin(CheckInDate, range), OnDay(CheckInDate, r[i].day));
    }
    forall i | 0 <= i < |r|
      ensures HasRecordOn(checkIns, CheckInDate, r[i].day)
    {
      assert r[i].day in days;
      var k :| 0 <= k < |inRange| && days[k] == r[i].day;
      assert multiset(checkIns)[inRange[k]] > 0 by {
        assert inRange[k] in multiset(inRange);
      }
      var j :| 0 <= j < |checkIns| && checkIns[j] == inRange[k];
    }
    forall j | 0 <= j < |checkIns| && range.Contains(checkIns[j].at.date)
      ensures exists i :: 0 <= i < |r| && r[i].day == checkIns[j].at.date
    {
      assert multiset(inRange)[checkIns[j]] == multiset(checkIns)[checkIns[j]] > 0;
      var k :| 0 <= k < |inRange| && inRange[k] == checkIns[j];
      assert days[k] == checkIns[j].at.date && days[k] in days;
    }
  }

  // ----- sleep and naps -----

  /** A sleep chart row: total sleep, 0 when unknown (`|| 0`), and quality. */
  datatype SleepPoint = SleepPoint(day: Day, tst: int, quality: int)

  function SleepPointOf(e: SleepEntry): (p: SleepPoint)
    ensures p.day == e.date && p.quality == e.quality
    ensures 0 <= p.tst < MinutesPerDay
    ensures TotalSleepMinutes(e).None? ==> p.tst == 0
    ensures p.tst != 0 ==> TotalSleepMinutes(e) == Some(p.tst)
  {
    SleepPoint(e.date, TotalSleepMinutes(e).GetOr(0), e.quality)
  }

  function SleepPointLabel(p: SleepPoint): string {
    DayLabel(p.day)
  }

  /** The sleep chart: one row per night in range, no grouping, sorted by label. */
  function SleepRows(sleep: seq<SleepEntry>, range: Range): (r: seq<SleepPoint>)
    ensures multiset(r) == multiset(Map(Within(sleep, SleepDate, range), SleepPointOf))
    ensures forall i :: 0 <= i < |r| ==> range.Contains(r[i].day)
    ensures forall i, j :: 0 <= i < j < |r| ==> TextLe(DayLabel(r[i].day), DayLabel(r[j].day))
  {
    TextLeIsTotalPreorder();
    var points := Map(Within(sleep, SleepDate, range), SleepPointOf);
    var r := SortBy(points, SleepPointLabel, TextLe);
    forall i | 0 <= i < |r| ensures range.Contains(r[i].day) {
      assert r[i] in multiset(points);
    }
    r
  }

  /** A nap chart row: duration, 0 when unknown, negative across midnight. */
  datatype NapPoint = NapPoint(day: Day, duration: int, refreshing: int)

  function NapPointOf(n: Nap): (p: NapPoint)
    ensures p.day == n.date && p.refreshing == n.refreshing
    ensures NapDuration(n).None? ==> p.duration == 0
    ensures NapDuration(n).Some? ==> p.duration == NapDuration(n).value
  {
    NapPoint(n.date, NapDuration(n).GetOr(0), n.refreshing)
  }

  function NapPointLabel(p: NapPoint): string {
    DayLabel(p.day)
  }

  /** The nap chart: one row per nap in range, no grouping, sorted by label. */
  function NapRows(naps: seq<Nap>, range: Range): (r: seq<NapPoint>)
    ensures multiset(r) == multiset(Map(Within(naps, NapDate, range), NapPointOf))
    ensures forall i :: 0 <= i < |r| ==> range.Contains(r[i].day)
    ensures forall i, j :: 0 <= i < j < |r| ==> TextLe(DayLabel(r[i].day), DayLabel(r[j].day))
  {
    TextLeIsTotalPreorder();
    var points := Map(Within(naps, NapDate, range), NapPointOf);
    var r := SortBy(points, NapPointLabel, TextLe);
    forall i | 0 <= i < |r| ensures range.Contains(r[i].day) {
      assert r[i] in multiset(points);
    }
    r
  }

  /** A nap from 23:50 to 00:10 is charted at -1420 minutes, not at 20. */
  lemma MidnightNapChartedNegative()
    ensures NapPointOf(Nap(0, FormatClock(23 * 60 + 50), FormatClock(10), false, 3, None)).duration == -1420
  {
    NapFromTenToMidnight();
  }

  // ----- medications -----

  /** `meds.find(m => m.id === id)`. */
  function FindMed(meds: seq<Medication>, id: Id): (r: Option<Medication>)
    ensures r.None? <==> forall i :: 0 <= i < |meds| ==> meds[i].id != id
    ensures r.Some? ==> exists i :: 0 <= i < |meds| && meds[i] == r.value && r.value.id == id
                                    && forall j :: 0 <= j < i ==> meds[j].id != id
  {
    if |meds| == 0 then None
    else if meds[0].id == id then Some(meds[0])
    else
      var r := FindMed(meds[1..], id);
      assert forall i :: 1 <= i < |meds| ==> meds[i] == meds[1..][i - 1];
      r
  }

  function IntakeDate(x: MedIntake): Day {
    x.at.date
  }

  function IntakeOf(d: Day, id: Id): MedIntake -> bool {
    (x: MedIntake) => x.at.date == d && x.medicationId == id
  }

  /** The number of intakes of medication `id` on day `d`. */
  function MedCount(intakes: seq<MedIntake>, d: Day, id: Id): nat {
    |Filter(intakes, IntakeOf(d, id))|
  }

  /** Each further intake counts for its own day and medication only, so the counts
      are the tallies `dateMap.set(id, (dateMap.get(id) || 0) + 1)` keeps. */
  lemma MedCountStep(intakes: seq<MedIntake>, x: MedIntake, d: Day, id: Id)
    ensures MedCount([], d, id) == 0
    ensures MedCount(intakes + [x], d, id)
            == MedCount(intakes, d, id) + (if x.at.date == d && x.medicationId == id then 1 else 0)
  {
    assert (intakes + [x])[..|intakes|] == intakes;
  }

  /** One column of a medication row: the medication's name and its count. */
  datatype MedColumn = MedColumn(name: string, count: nat)

  /** The column of medication `id` on day `d`, when `id` names a listed medication:
      that medication's name and its count. */
  function ColumnFor(intakes: seq<MedIntake>, d: Day, meds: seq<Medication>, id: Id): (c: Option<MedColumn>)
    ensures c.None? <==> forall i :: 0 <= i < |meds| ==> meds[i].id != id
    ensures c.Some? ==> c.value.name == FindMed(meds, id).value.name
    ensures c.Some? ==> c.value.count == MedCount(intakes, d, id)
  {
    match FindMed(meds, id)
    case None => None
    case Some(m) => Some(MedColumn(m.name, MedCount(intakes, d, m.id)))
  }

  /** The columns of day `d`: one per selected id that names a listed medication, in
      the order of selection. */
  function MedColumns(intakes: seq<MedIntake>, d: Day, selected: seq<Id>, meds: seq<Medication>): (cols: seq<MedColumn>)
    ensures |cols| <= |selected|
    ensures forall i :: 0 <= i < |cols| ==>
              exists k :: 0 <= k < |selected| && ColumnFor(intakes, d, meds, selected[k]) == Some(cols[i])
    ensures forall k :: 0 <= k < |selected| && ColumnFor(intakes, d, meds, selected[k]).Some? ==>
              ColumnFor(intakes, d, meds, selected[k]).value in cols
  {
    var all := Map(selected, id => ColumnFor(intakes, d, meds, id));
    var cols := Somes(all);
    forall i | 0 <= i < |cols|
      ensures exists k :: 0 <= k < |selected| && ColumnFor(intakes, d, meds, selected[k]) == Some(cols[i])
    {
      var k :| 0 <= k < |all| && all[k] == Some(cols[i]);
    }
    cols
  }

  /** A medication chart row. */
  datatype MedPoint = MedPoint(day: Day, columns: seq<MedColumn>)

  function MedPointDay(p: MedPoint): Day {
    p.day
  }

  function MedPointOf(intakes: seq<MedIntake>, d: Day, selected: seq<Id>, meds: seq<Medication>): (p: MedPoint)
    ensures p.day == d && p.columns == MedColumns(intakes, d, selected, meds)
  {
    MedPoint(d, MedColumns(intakes, d, selected, meds))
  }

  /** The medication chart: one row per date in range that has an intake, holding the
      counts of the selected medications, sorted by label. */
  function MedRows(intakes: seq<MedIntake>, range: Range, selected: seq<Id>, meds: seq<Medication>): (r: seq<MedPoint>)
    ensures forall i :: 0 <= i < |r| ==>
              range.Contains(r[i].day) && r[i] == MedPointOf(intakes, r[i].day, selected, meds)
    ensures forall j :: 0 <= j < |intakes| && range.Contains(intakes[j].at.date) ==>
              exists i :: 0 <= i < |r| && r[i].day == intakes[j].at.date
    ensures forall i :: 0 <= i < |r| ==> HasRecordOn(intakes, IntakeDate, r[i].day)
    ensures forall i, j :: 0 <= i < j < |r| ==> r[i].day != r[j].day
    ensures forall i, j :: 0 <= i < j < |r| ==> TextLe(DayLabel(r[i].day), DayLabel(r[j].day))
    ensures |intakes| == 0 ==> r == []
    ensures (forall j :: 0 <= j < |intakes| ==> !range.Contains(intakes[j].at.date)) ==> r == []
  {
    var inRange := Within(intakes, IntakeDate, range);
    var days := Map(inRange, IntakeDate);
    var r := ChartRows(days, d => MedPointOf(inRange, d, selected, meds), MedPointDay);
    MedRowsOfAll(intakes, range, selected, meds, r);
    r
  }

  lemma MedRowsOfAll(intakes: seq<MedIntake>, range: Range, selected: seq<Id>, meds: seq<Medication>, r: seq<MedPoint>)
    requires var inRange := Within(intakes, IntakeDate, range);
      forall i :: 0 <= i < |r| ==>
        r[i] == MedPointOf(inRange, r[i].day, selected, meds) && r[i].day in Map(inRange, IntakeDate)
    requires var inRange := Within(intakes, IntakeDate, range);
      forall d :: d in Map(inRange, IntakeDate) ==> exists i :: 0 <= i < |r| && r[i].day == d
    ensures forall i :: 0 <= i < |r| ==>
              range.Contains(r[i].day) && r[i] == MedPointOf(intakes, r[i].day, selected, meds)
    ensures forall j :: 0 <= j < |intakes| && range.Contains(intakes[j].at.date) ==>
              exists i :: 0 <= i < |r| && r[i].day == intakes[j].at.date
    ensures forall i :: 0 <= i < |r| ==> HasRecordOn(intakes, IntakeDate, r[i].day)
  {
    var inRange := Within(intakes, IntakeDate, range);
    var days := Map(inRange, IntakeDate);
    forall i | 0 <= i < |r|
      ensures range.Contains(r[i].day) && r[i] == MedPointOf(intakes, r[i].day, selected, meds)
    {
      var d := r[i].day;
      var k :| 0 <= k < |inRange| && days[k] == d;
      assert range.Contains(IntakeDate(inRange[k]));
      SameColumnsInRange(intakes, range, d, selected, meds);
    }
    forall i | 0 <= i < |r|
      ensures HasRecordOn(intakes, IntakeDate, r[i].day)
    {
      var k :| 0 <= k < |inRange| && days[k] == r[i].day;
      assert multiset(intakes)[inRange[k]] > 0 by {
        assert inRange[k] in multiset(inRange);
      }
      var j :| 0 <= j < |intakes| && intakes[j] == inRange[k];
    }
    forall j | 0 <= j < |intakes| && range.Contains(intakes[j].at.date)
      ensures exists i :: 0 <= i < |r| && r[i].day == intakes[j].at.date
    {
      assert multiset(inRange)[intakes[j]] == multiset(intakes)[intakes[j]] > 0;
      var k :| 0 <= k < |inRange| && inRange[k] == intakes[j];
      assert days[k] == intakes[j].at.date && days[k] in days;
    }
  }

  /** For a day in range, counting among the intakes in range counts them all. */
  lemma SameColumnsInRange(intakes: seq<MedIntake>, range: Range, d: Day, selected: seq<Id>, meds: seq<Medication>)
    requires range.Contains(d)
    ensures MedColumns(Within(intakes, IntakeDate, range), d, selected, meds)
            == MedColumns(intakes, d, selected, meds)
  {
    var inRange := Within(intakes, IntakeDate, range);
    forall id ensures ColumnFor(inRange, d, meds, id) == ColumnFor(intakes, d, meds, id) {
      FilterNarrower(intakes, DatedWithin(IntakeDate, range), IntakeOf(d, id));
    }
    assert Map(selected, id => ColumnFor(inRange, d, meds, id))
           == Map(selected, id => ColumnFor(intakes, d, meds, id));
  }
}
