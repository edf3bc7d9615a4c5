/** The application's records, as the pages see them after the store has mapped its
    rows (the `SleepEntry`, `Nap`, `CheckIn`, ... interfaces). Dates are day numbers,
    times of day are `TimeText`, ids are opaque strings. */
module Records {
  import opened Optional
  import opened Calendar
  import opened Clock

  type Id = string

  /** One night: the day it is attributed to, the three times, quality 1..5. */
  datatype SleepEntry = SleepEntry(
    date: Day,
    bedtime: Option<TimeText>,
    onset: Option<TimeText>,
    wake: Option<TimeText>,
    quality: int,
    notes: Option<string>)

  /** One nap; `refreshing` is a 1..5 score. */
  datatype Nap = Nap(
    date: Day,
    start: TimeText,
    end: TimeText,
    planned: bool,
    refreshing: int,
    notes: Option<string>)

  /** An ISO date-time; only its date part (`split('T')[0]`) and its position in
      time are ever used. */
  datatype Timestamp = Timestamp(date: Day, minute: ClockMinute)

  /** A Stanford Sleepiness Scale check-in. `context` is kept as text because the
      store's mapping casts whatever the column holds; the forms write "Morning",
      "Midday", "Evening" or "Other". `labels` are the selected custom data points. */
  datatype CheckIn = CheckIn(at: Timestamp, context: string, sss: int, labels: seq<string>)

  datatype Medication = Medication(
    id: Id,
    name: string,
    doseMg: Option<int>,
    scheduleTimes: Option<seq<string>>,
    asNeeded: bool)

  /** One medication intake; `taken` is `None` when the store holds null. */
  datatype MedIntake = MedIntake(
    medicationId: Id,
    at: Timestamp,
    doseMg: Option<int>,
    taken: Option<bool>)

  /** An A/B block experiment. `metric` is kept as text for the same reason as a
      check-in's context; `end` is `None` when the store holds null. */
  datatype Experiment = Experiment(
    id: Id,
    title: string,
    goal: Option<string>,
    metric: string,
    start: Day,
    end: Option<Day>,
    armADesc: string,
    armBDesc: string)

  /** The arm an experiment assigns to one day, "A" or "B". */
  datatype ArmAssignment = ArmAssignment(experimentId: Id, date: Day, arm: string)

  /** Per-user settings; `reminderEnabled` is `None` when the store holds null. */
  datatype Settings = Settings(timezone: string, reminderTime: string, reminderEnabled: Option<bool>)

  const MetricMiddaySss: string := "Midday SSS avg"
  const MetricSleepQuality: string := "Sleep quality avg"
  const MetricTst: string := "TST (min)"

  const ArmA: string := "A"
  const ArmB: string := "B"
}
