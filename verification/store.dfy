/** The store boundary of `src/lib/supabase-db.ts`: the rows the remote tables hand
    back, the defaults with which they are turned into records, and the rows the `add`
    operations write. Queries, ordering and authentication are outside the model; a
    table is the sequence of its rows. Nullable columns are `Option`s (`None` is SQL
    null); where the code tells `undefined` from `null`, the column is a `Cell`. */
module Store {
  import opened Optional
  import opened Calendar
  import opened Clock
  import opened Records
  import opened Metrics

  /** A column as JavaScript sees it: absent from the object, null, or a value. */
  datatype Cell<+T> = Undefined | Null | Value(v: T)

  /** `s || fallback` for a nullable text column. */
  function OrText(s: Option<string>, fallback: string): (r: string)
    ensures s.Some? && s.value != "" ==> r == s.value
    ensures s.None? || s.value == "" ==> r == fallback
  {
    if s.Some? && s.value != "" then s.value else fallback
  }

  /** `n || fallback` for a nullable number column. */
  function OrNumber(n: Option<int>, fallback: int): (r: int)
    ensures n.Some? && n.value != 0 ==> r == n.value
    ensures n.None? || n.value == 0 ==> r == fallback
  {
    if n.Some? && n.value != 0 then n.value else fallback
  }

  // ----- sleep_entries -----

  /** The columns of `sleep_entries` the mapping reads. `bed_time` and `wake_time` are
      non-null; `bedtime`, `sleep_onset` and `quality` are nullable. */
  datatype SleepRow = SleepRow(
    date: Day,
    bedtime: Option<TimeText>,
    bedTime: TimeText,
    onset: Option<TimeText>,
    wake: TimeText,
    quality: Option<int>,
    notes: Option<string>)

  const DefaultSleepQuality: int := 3

  /** The mapping of `getAllSleepEntries`: bedtime prefers the `bedtime` column over
      `bed_time`, and a null or zero quality reads as 3. */
  function MapSleepRow(row: SleepRow): (e: SleepEntry)
    ensures e.date == row.date && e.onset == row.onset && e.wake == Some(row.wake)
    ensures e.notes == row.notes
    ensures row.bedtime.Some? && row.bedtime.value != "" ==> e.bedtime == row.bedtime
    ensures row.bedtime.None? || row.bedtime.value == "" ==> e.bedtime == Some(row.bedTime)
    ensures row.quality.Some? && row.quality.value != 0 ==> e.quality == row.quality.value
    ensures row.quality.None? || row.quality.value == 0 ==> e.quality == DefaultSleepQuality
  {
    SleepEntry(
      row.date,
      Some(OrText(row.bedtime, row.bedTime)),
      row.onset,
      Some(row.wake),
      OrNumber(row.quality, DefaultSleepQuality),
      row.notes)
  }

  /** The row `addSleepEntry` inserts: missing bedtime and wake time are written as
      empty text in the non-null columns, quality is copied unchanged. */
  function SleepRowOf(e: SleepEntry): (row: SleepRow)
    ensures row.bedTime == e.bedtime.GetOr("") && row.wake == e.wake.GetOr("")
    ensures row.bedtime == e.bedtime && row.onset == e.onset
    ensures row.quality == Some(e.quality) && row.date == e.date && row.notes == e.notes
  {
    SleepRow(e.date, e.bedtime, e.bedtime.GetOr(""), e.onset, e.wake.GetOr(""), Some(e.quality), e.notes)
  }

  /** What comes back from storing an entry is the entry itself, except that missing
      times come back as empty text and a zero quality as 3. */
  lemma SleepEntryRoundTrip(e: SleepEntry)
    ensures MapSleepRow(SleepRowOf(e))
            == e.(bedtime := Some(e.bedtime.GetOr("")),
                  wake := Some(e.wake.GetOr("")),
                  quality := if e.quality == 0 then DefaultSleepQuality else e.quality)
  {
  }

  /** Storing an entry never changes its total sleep. */
  lemma SleepRoundTripKeepsTotal(e: SleepEntry)
    ensures TotalSleepMinutes(MapSleepRow(SleepRowOf(e))) == TotalSleepMinutes(e)
  {
    SleepEntryRoundTrip(e);
  }

  // ----- naps -----

  /** The columns of `naps` the mapping reads; `planned`, `refreshing` and `quality`
      are nullable. */
  datatype NapRow = NapRow(
    date: Day,
    start: TimeText,
    end: TimeText,
    planned: Option<bool>,
    refreshing: Option<int>,
    quality: Option<int>,
    notes: Option<string>)

  const DefaultRefreshing: int := 3

  /** The mapping of `getAllNaps`: a null planned flag is false, the score is
      `refreshing`, else the legacy `quality`, else 3. */
  function MapNapRow(row: NapRow): (n: Nap)
    ensures n.date == row.date && n.start == row.start && n.end == row.end
    ensures n.notes == row.notes
    ensures n.planned <==> row.planned == Some(true)
    ensures row.refreshing.Some? && row.refreshing.value != 0 ==> n.refreshing == row.refreshing.value
    ensures (row.refreshing.None? || row.refreshing.value == 0) && row.quality.Some? && row.quality.value != 0
            ==> n.refreshing == row.quality.value
    ensures (row.refreshing.None? || row.refreshing.value == 0) && (row.quality.None? || row.quality.value == 0)
            ==> n.refreshing == DefaultRefreshing
  {
    Nap(
      row.date, row.start, row.end,
      row.planned == Some(true),
      OrNumber(row.refreshing, OrNumber(row.quality, DefaultRefreshing)),
      row.notes)
  }

  /** The row `addNap` inserts: the score goes to both `refreshing` and `quality`. */
  function NapRowOf(n: Nap): (row: NapRow)
    ensures row.refreshing == row.quality == Some(n.refreshing)
    ensures row.planned == Some(n.planned)
    ensures row.date == n.date && row.start == n.start && row.end == n.end && row.notes == n.notes
  {
    NapRow(n.date, n.start, n.end, Some(n.planned), Some(n.refreshing), Some(n.refreshing), n.notes)
  }

  /** A stored nap comes back unchanged unless its score was 0, which reads as 3. */
  lemma NapRoundTrip(n: Nap)
    ensures MapNapRow(NapRowOf(n))
            == n.(refreshing := if n.refreshing == 0 then DefaultRefreshing else n.refreshing)
  {
  }

  // ----- check_ins -----

  /** The columns of `check_ins`; there is no column for selected data points. */
  datatype CheckInRow = CheckInRow(at: Timestamp, context: Option<string>, sss: Option<int>)

  const DefaultSss: int := 4

  /** The mapping of `getAllCheckIns`: a missing context reads as "Other", a null or
      zero score as 4, and no data-point labels are carried over. */
  function MapCheckInRow(row: CheckInRow): (c: CheckIn)
    ensures c.at == row.at
    ensures row.context.Some? && row.context.value != "" ==> c.context == row.context.value
    ensures row.context.None? || row.context.value == "" ==> c.context == Other
    ensures row.sss.Some? && row.sss.value != 0 ==> c.sss == row.sss.value
    ensures row.sss.None? || row.sss.value == 0 ==> c.sss == DefaultSss
    ensures c.labels == []
  {
    CheckIn(row.at, OrText(row.context, Other), OrNumber(row.sss, DefaultSss), [])
  }

  /** The row `addCheckIn` inserts. */
  function CheckInRowOf(c: CheckIn): (row: CheckInRow)
    ensures row.at == c.at && row.context == Some(c.context) && row.sss == Some(c.sss)
  {
    CheckInRow(c.at, Some(c.context), Some(c.sss))
  }

  /** A stored check-in comes back with its time, context and score (an empty context
      as "Other", a zero score as 4) but without its labels. */
  lemma CheckInRoundTrip(c: CheckIn)
    ensures MapCheckInRow(CheckInRowOf(c))
            == c.(context := if c.context == "" then Other else c.context,
                  sss := if c.sss == 0 then DefaultSss else c.sss,
                  labels := [])
  {
  }

  /** Every check-in read from the store lists no labels. */
  lemma StoredCheckInsHaveNoLabels(rows: seq<CheckInRow>)
    ensures forall i :: 0 <= i < |rows| ==> MapCheckInRow(rows[i]).labels == []
  {
  }

  // ----- med_intakes -----

  /** The columns of `med_intakes`; `taken` is nullable. */
  datatype MedIntakeRow = MedIntakeRow(medId: Id, at: Timestamp, doseMg: Option<int>, taken: Cell<bool>)

  /** The mapping of `getAllMedIntakes`: `taken` defaults to true only when the column
      is absent from the row; a null passes through. */
  function MapMedIntakeRow(row: MedIntakeRow): (m: MedIntake)
    ensures m.medicationId == row.medId && m.at == row.at && m.doseMg == row.doseMg
    ensures row.taken.Undefined? ==> m.taken == Some(true)
    ensures row.taken.Null? ==> m.taken.None?
    ensures row.taken.Value? ==> m.taken == Some(row.taken.v)
  {
    MedIntake(
      row.medId, row.at, row.doseMg,
      match row.taken
      case Undefined => Some(true)
      case Null => None
      case Value(b) => Some(b))
  }

  /** The row `addMedIntake` inserts. */
  function MedIntakeRowOf(m: MedIntake): (row: MedIntakeRow)
    ensures row.medId == m.medicationId && row.at == m.at && row.doseMg == m.doseMg
    ensures m.taken.Some? ==> row.taken == Value(m.taken.value)
    ensures m.taken.None? ==> row.taken == Null
  {
    MedIntakeRow(m.medicationId, m.at, m.doseMg,
                 match m.taken
                 case Some(b) => Value(b)
                 case None => Null)
  }

  /** A stored intake comes back exactly as it was. */
  lemma MedIntakeRoundTrip(m: MedIntake)
    ensures MapMedIntakeRow(MedIntakeRowOf(m)) == m
  {
  }

  // ----- arm_assignments -----

  /** The columns of `arm_assignments`; `date` and `arm` are nullable, the legacy
      `start_date` and `arm_name` are not. */
  datatype ArmRow = ArmRow(experimentId: Id, date: Option<Day>, startDate: Day, arm: Option<string>, armName: string)

  /** The mapping of `getAllArmAssignments`: the date falls back to `start_date`, and a
      missing arm falls back to "A" when `arm_name` is "A" and to "B" otherwise. */
  function MapArmRow(row: ArmRow): (a: ArmAssignment)
    ensures a.experimentId == row.experimentId
    ensures a.date == row.date.GetOr(row.startDate)
    ensures row.arm.Some? && row.arm.value != "" ==> a.arm == row.arm.value
    ensures row.arm.None? || row.arm.value == "" ==> (a.arm == ArmA <==> row.armName == ArmA)
    ensures row.arm.None? || row.arm.value == "" ==> a.arm == ArmA || a.arm == ArmB
  {
    ArmAssignment(
      row.experimentId,
      row.date.GetOr(row.startDate),
      if row.arm.Some? && row.arm.value != "" then row.arm.value
      else if row.armName == ArmA then ArmA else ArmB)
  }

  /** The row `addArmAssignment` inserts: the date and the arm go to both the current
      and the legacy columns. */
  function ArmRowOf(a: ArmAssignment): (row: ArmRow)
    ensures row.date == Some(row.startDate) && row.startDate == a.date
    ensures row.arm == Some(row.armName) && row.armName == a.arm
    ensures row.experimentId == a.experimentId
  {
    ArmRow(a.experimentId, Some(a.date), a.date, Some(a.arm), a.arm)
  }

  /** A stored assignment comes back exactly as it was, whenever its arm is A or B. */
  lemma ArmRoundTrip(a: ArmAssignment)
    requires a.arm == ArmA || a.arm == ArmB
    ensures MapArmRow(ArmRowOf(a)) == a
  {
  }

  // ----- user_settings -----

  /** The columns of `user_settings`, all nullable. */
  datatype SettingsRow = SettingsRow(timezone: Option<string>, reminderTime: Option<string>, reminderEnabled: Cell<bool>)

  const DefaultTimezone: string := "America/New_York"
  const DefaultReminderTime: string := "22:30"

  /** The settings the local database starts with (`src/lib/db.ts`). */
  const InitialSettings: Settings := Settings(DefaultTimezone, DefaultReminderTime, Some(true))

  /** `getSettings`: nothing when the user has no settings row; otherwise the row with
      empty text replaced by the defaults, and the reminder switched on only when its
      column is absent (a null passes through). */
  function GetSettings(row: Option<SettingsRow>): (s: Option<Settings>)
    ensures s.None? <==> row.None?
    ensures s.Some? && (row.value.timezone.None? || row.value.timezone.value == "")
            ==> s.value.timezone == DefaultTimezone
    ensures s.Some? && row.value.timezone.Some? && row.value.timezone.value != ""
            ==> s.value.timezone == row.value.timezone.value
    ensures s.Some? && (row.value.reminderTime.None? || row.value.reminderTime.value == "")
            ==> s.value.reminderTime == DefaultReminderTime
    ensures s.Some? && row.value.reminderTime.Some? && row.value.reminderTime.value != ""
            ==> s.value.reminderTime == row.value.reminderTime.value
    ensures s.Some? ==> (s.value.reminderEnabled == Some(true) <==>
                         row.value.reminderEnabled in {Undefined, Value(true)})
    ensures s.Some? ==> (s.value.reminderEnabled.None? <==> row.value.reminderEnabled.Null?)
  {
    match row
    case None => None
    case Some(r) =>
      Some(Settings(
        OrText(r.timezone, DefaultTimezone),
        OrText(r.reminderTime, DefaultReminderTime),
        match r.reminderEnabled
        case Undefined => Some(true)
        case Null => None
        case Value(b) => Some(b)))
  }

  /** A settings row holding no values reads as the settings the local database starts
      with, so both back ends agree on the defaults. */
  lemma EmptySettingsAreInitial()
    ensures GetSettings(Some(SettingsRow(None, None, Undefined))) == Some(InitialSettings)
    ensures GetSettings(Some(SettingsRow(Some(""), Some(""), Undefined))) == Some(InitialSettings)
  {
  }
}
