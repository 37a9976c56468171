/** The rows of the attendance export and of the cleaned table. Every cell may
    be null; `None` stands for pandas' NaN. */
module Records {
  import opened Outcomes

  /** The twelve columns `clean_data` keeps, in the order it selects them. */
  const KeepColumns: seq<string> := [
    "User ID", "Opportunity City", "Opportunity State", "Opportunity Zip",
    "Date of Birth", "Date", "Time", "End Date", "End Time", "Hours",
    "Languages Spoken", "Public Gender"
  ]

  /** One row of the export as loaded: the twelve columns of interest, typed,
      and every other column of the file by name. */
  datatype RawRow = RawRow(
    userId: Option<string>,
    city: Option<string>,
    state: Option<string>,
    zip: Option<string>,
    dateOfBirth: Option<string>,
    date: Option<string>,
    time: Option<string>,
    endDate: Option<string>,
    endTime: Option<string>,
    hours: Option<real>,
    languages: Option<string>,
    gender: Option<string>,
    others: map<string, string>)

  /** A loaded table: its header and its rows, in file order. */
  datatype RawTable = RawTable(columns: seq<string>, rows: seq<RawRow>)

  /** A row after projection, with `Date` and `Time` renamed to `Start Date`
      and `Start Time`. */
  datatype Row = Row(
    userId: Option<string>,
    city: Option<string>,
    state: Option<string>,
    zip: Option<string>,
    dateOfBirth: Option<string>,
    startDate: Option<string>,
    startTime: Option<string>,
    endDate: Option<string>,
    endTime: Option<string>,
    hours: Option<real>,
    languages: Option<string>,
    gender: Option<string>)

  datatype Weekday = Monday | Tuesday | Wednesday | Thursday | Friday | Saturday | Sunday

  /** A weekday number as the date library reports it, Monday being 0. */
  type DayIndex = i: int | 0 <= i < 7

  /** Seconds into a day: what remains of an elapsed time once whole days are
      taken out. */
  type DaySeconds = s: int | 0 <= s < 86400

  const SecondsPerDay: int := 86400

  /** The date library, which the model does not look inside: the weekday of
      a date string, and the instant (in whole seconds from a fixed epoch) of a
      "date time" string; `None` where parsing raises. */
  datatype Clock = Clock(dayOfWeek: string -> Option<DayIndex>, instant: string -> Option<int>)

  /** A row of the cleaned table: the projected row unchanged, plus the derived
      `Weekday`, `Start`, `End` and `Calculated Hours` (kept in seconds). */
  datatype Cleaned = Cleaned(
    row: Row,
    weekday: Weekday,
    start: Option<int>,
    end: Option<int>,
    calculatedSeconds: Option<DaySeconds>)

  /** The weekday-name table of the source, Monday = 0 through Sunday = 6. */
  function DayName(i: DayIndex): (w: Weekday)
    ensures DayNumber(w) == i
  {
    match i
    case 0 => Monday
    case 1 => Tuesday
    case 2 => Wednesday
    case 3 => Thursday
    case 4 => Friday
    case 5 => Saturday
    case 6 => Sunday
  }

  /** The inverse of `DayName`. */
  function DayNumber(w: Weekday): (i: DayIndex) {
    match w
    case Monday => 0
    case Tuesday => 1
    case Wednesday => 2
    case Thursday => 3
    case Friday => 4
    case Saturday => 5
    case Sunday => 6
  }

  lemma DayNameOfNumber(w: Weekday)
    ensures DayName(DayNumber(w)) == w
  {
  }

  /** The projected rows of a cleaned table. */
  function RowsOf(cs: seq<Cleaned>): (rows: seq<Row>)
    ensures |rows| == |cs| && forall i :: 0 <= i < |cs| ==> rows[i] == cs[i].row
  {
    seq(|cs|, i requires 0 <= i < |cs| => cs[i].row)
  }
}
