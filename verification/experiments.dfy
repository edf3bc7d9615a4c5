/** The experiment engine of `src/pages/Experiments.tsx`: creating an A/B block
    experiment with its fixed day-by-day arm schedule, the status badges, and the order
    of the list. Dates are compared as day numbers; `Calendar.IsoOrder` shows that the
    page's comparisons of ISO date text agree. */
module Experiments {
  import opened Optional
  import opened Js
  import opened Calendar
  import opened Records
  import opened Stats
  import opened Sorting

  /** The durations the form offers: 7 days (4 A + 3 B) or 14 days (7 A + 7 B). */
  type Duration = d: int | d == 7 || d == 14 witness 7

  /** Days at the start of the block that are given arm A. */
  function ArmADays(duration: Duration): (k: nat)
    ensures duration == 7 ==> k == 4
    ensures duration == 14 ==> k == 7
  {
    if duration == 7 then 4 else 7
  }

  /** The last day of an experiment that starts on `start` and lasts `duration` days. */
  function EndDay(start: Day, duration: Duration): (end: Day)
    ensures end - start + 1 == duration
  {
    start + duration - 1
  }

  /** The arm assigned to day `i` of the block. */
  function ArmOfDay(i: int, duration: Duration): string {
    if i < ArmADays(duration) then ArmA else ArmB
  }

  /** The arm assignments of a new experiment: one per day from its start, arm A for
      the first days of the block, arm B for the rest. */
  function Schedule(id: Id, start: Day, duration: Duration): (r: seq<ArmAssignment>)
    ensures |r| == duration
    ensures forall i :: 0 <= i < |r| ==> r[i].experimentId == id && r[i].date == start + i
    ensures forall i :: 0 <= i < |r| ==> (r[i].arm == ArmA <==> i < ArmADays(duration))
    ensures forall i :: 0 <= i < |r| ==> (r[i].arm == ArmB <==> ArmADays(duration) <= i)
  {
    seq(duration, i requires 0 <= i < duration => ArmAssignment(id, start + i, ArmOfDay(i, duration)))
  }

  /** The loop of `handleCreateExperiment` that builds the assignments. */
  method GenerateAssignments(id: Id, start: Day, duration: Duration) returns (out: seq<ArmAssignment>)
    ensures out == Schedule(id, start, duration)
  {
    out := [];
    var split := if duration == 7 then 4 else 7;
    var i := 0;
    while i < duration
      invariant 0 <= i <= duration
      invariant |out| == i
      invariant forall k :: 0 <= k < i ==> out[k] == Schedule(id, start, duration)[k]
    {
      out := out + [ArmAssignment(id, start + i, if i < split then ArmA else ArmB)];
      i := i + 1;
    }
  }

  predicate IsArmA(a: ArmAssignment) {
    a.arm == ArmA
  }

  predicate IsArmB(a: ArmAssignment) {
    a.arm == ArmB
  }

  /** Assignments whose first `k` days, and only those, are arm A hold `k` of arm A. */
  lemma {:induction false} CountLeadingA(r: seq<ArmAssignment>, k: nat)
    requires k <= |r|
    requires forall i :: 0 <= i < |r| ==> (r[i].arm == ArmA <==> i < k)
    ensures Count(r, IsArmA) == k
    decreases |r|
  {
    if |r| > k {
      CountLeadingA(r[..|r| - 1], k);
    } else if |r| > 0 {
      CountLeadingA(r[..|r| - 1], k - 1);
    }
  }

  /** Assignments whose days from `k` on, and only those, are arm B hold `|r| - k` of B. */
  lemma {:induction false} CountTrailingB(r: seq<ArmAssignment>, k: nat)
    requires k <= |r|
    requires forall i :: 0 <= i < |r| ==> (r[i].arm == ArmB <==> k <= i)
    ensures Count(r, IsArmB) == |r| - k
    decreases |r|
  {
    if |r| > k {
      CountTrailingB(r[..|r| - 1], k);
    } else if |r| > 0 {
      CountTrailingB(r[..|r| - 1], k - 1);
    }
  }

  /** A 7-day block has 4 days of A and 3 of B; a 14-day block 7 of each. */
  lemma ScheduleArmCounts(id: Id, start: Day, duration: Duration)
    ensures var r := Schedule(id, start, duration);
            duration == 7 ==> Count(r, IsArmA) == 4 && Count(r, IsArmB) == 3
    ensures var r := Schedule(id, start, duration);
            duration == 14 ==> Count(r, IsArmA) == 7 && Count(r, IsArmB) == 7
  {
    var r := Schedule(id, start, duration);
    CountLeadingA(r, ArmADays(duration));
    CountTrailingB(r, ArmADays(duration));
  }

  /** The assignments name each day from the start to the end date exactly once. */
  lemma ScheduleCoversBlock(id: Id, start: Day, duration: Duration, d: Day)
    ensures var r := Schedule(id, start, duration);
            (exists i :: 0 <= i < |r| && r[i].date == d) <==> start <= d <= EndDay(start, duration)
    ensures var r := Schedule(id, start, duration);
            forall i, j :: 0 <= i < j < |r| ==> r[i].date < r[j].date
  {
    var r := Schedule(id, start, duration);
    if start <= d <= EndDay(start, duration) {
      assert r[d - start].date == d;
    }
  }

  /** The new-experiment form. `start` is None when the date box has been cleared. */
  datatype Draft = Draft(
    title: string,
    goal: string,
    metric: string,
    duration: Duration,
    start: Option<Day>,
    armA: string,
    armB: string)

  /** A stored experiment together with its arm assignments. */
  datatype Creation = Creation(experiment: Experiment, assignments: seq<ArmAssignment>)

  /** Why a creation is refused: the toast "Please fill in all required fields", or
      the toast "Failed to create experiment" when an empty start date makes
      `new Date("")` invalid and `toISOString` throws before anything is stored. */
  datatype CreateError = MissingRequiredFields | InvalidStartDate

  /** `handleCreateExperiment`: refused, with nothing written, when the title or either
      arm is blank, or else when the start date is empty; otherwise the new experiment,
      whose required text is never empty, and its arm schedule. `id` is the key the
      database hands out. */
  function Create(d: Draft, id: Id): (r: Result<Creation, CreateError>)
    ensures r.Failure? <==> IsBlank(d.title) || IsBlank(d.armA) || IsBlank(d.armB) || d.start.None?
    ensures r.Failure? ==>
              (r.error == MissingRequiredFields <==> IsBlank(d.title) || IsBlank(d.armA) || IsBlank(d.armB))
    ensures r.Success? ==> d.start.Some? && r.value.experiment == NewExperiment(d, id)
    ensures r.Success? ==> var e := r.value.experiment;
                           e.title != "" && e.armADesc != "" && e.armBDesc != ""
    ensures r.Success? ==> r.value.assignments == Schedule(id, d.start.value, d.duration)
  {
    if IsBlank(d.title) || IsBlank(d.armA) || IsBlank(d.armB) then Failure(MissingRequiredFields)
    else if d.start.None? then Failure(InvalidStartDate)
    else Success(Creation(NewExperiment(d, id), Schedule(id, d.start.value, d.duration)))
  }

  /** The experiment record `handleCreateExperiment` stores: text trimmed, a blank goal
      left out, and an end date `duration - 1` days after the start. */
  function NewExperiment(d: Draft, id: Id): (e: Experiment)
    requires d.start.Some?
    ensures e.id == id && e.title == Trim(d.title)
    ensures e.armADesc == Trim(d.armA) && e.armBDesc == Trim(d.armB)
    ensures e.metric == d.metric && e.start == d.start.value
    ensures e.end == Some(d.start.value + d.duration - 1)
    ensures e.goal.None? <==> IsBlank(d.goal)
    ensures e.goal.Some? ==> e.goal.value == Trim(d.goal)
  {
    var end := EndDay(d.start.value, d.duration);
    assert end == d.start.value + d.duration - 1;
    Experiment(
      id, Trim(d.title), TrimmedOrNone(d.goal), d.metric,
      d.start.value, Some(end), Trim(d.armA), Trim(d.armB))
  }

  /** `s.trim() || undefined`. */
  function TrimmedOrNone(s: string): (r: Option<string>)
    ensures r.None? <==> IsBlank(s)
    ensures r.Some? ==> r.value == Trim(s) && r.value != ""
  {
    var t := Trim(s);
    if t == "" then None else Some(t)
  }

  /** Every assignment of a created experiment falls within its start and end dates. */
  lemma CreatedAssignmentsWithinExperiment(d: Draft, id: Id)
    requires Create(d, id).Success?
    ensures var c := Create(d, id).value;
            forall i :: 0 <= i < |c.assignments| ==>
              c.experiment.start <= c.assignments[i].date <= c.experiment.end.value
  {
  }

  // ----- status -----

  datatype Badge = Active | Completed | Upcoming

  /** The badges an experiment card shows on `today`. The page compares date text; with
      no end date the comparisons with it are false. */
  function Badges(e: Experiment, today: Day): (bs: set<Badge>)
    ensures Active in bs <==> e.start <= today && e.end.Some? && today <= e.end.value
    ensures Completed in bs <==> e.end.Some? && e.end.value < today
    ensures Upcoming in bs <==> today < e.start
  {
    (if e.start <= today && e.end.Some? && e.end.value >= today then {Active} else {})
    + (if e.end.Some? && e.end.value < today then {Completed} else {})
    + (if e.start > today then {Upcoming} else {})
  }

  /** An experiment that ends no earlier than it starts shows exactly one badge. */
  lemma ExactlyOneBadge(e: Experiment, today: Day)
    requires e.end.Some? && e.start <= e.end.value
    ensures |Badges(e, today)| == 1
  {
    var bs := Badges(e, today);
    if today < e.start {
      assert bs == {Upcoming};
    } else if today <= e.end.value {
      assert bs == {Active};
    } else {
      assert bs == {Completed};
    }
  }

  /** Every experiment the form creates shows exactly one badge on every day. */
  lemma CreatedExperimentHasOneBadge(d: Draft, id: Id, today: Day)
    requires Create(d, id).Success?
    ensures |Badges(Create(d, id).value.experiment, today)| == 1
  {
    ExactlyOneBadge(Create(d, id).value.experiment, today);
  }

  /** A started experiment without an end date shows no badge at all. */
  lemma OpenEndedShowsNoBadge(e: Experiment, today: Day)
    requires e.end.None? && e.start <= today
    ensures Badges(e, today) == {}
  {
  }

  // ----- list order -----

  function StartOf(e: Experiment): Day {
    e.start
  }

  /** The experiment list: the same experiments, latest start first. */
  function ListOrder(exps: seq<Experiment>): (r: seq<Experiment>)
    ensures multiset(r) == multiset(exps)
    ensures forall i, j :: 0 <= i < j < |r| ==> r[i].start >= r[j].start
  {
    NotBelowIsTotalPreorder();
    var r := SortBy(exps, StartOf, NotBelow);
    assert SortedBy(r, StartOf, NotBelow);
    r
  }
}
