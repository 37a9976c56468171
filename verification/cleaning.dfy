/** `clean_data`: projection and renaming, weekday derivation, exclusion of
    bulk-entry dates, the null filters, and the derived timestamp columns. */
module Cleaning {
  import opened Outcomes
  import opened Records
  import opened Seqs
  import opened Grouping

  /** A date with more counted rows than this is a data-entry artifact. */
  const BulkThreshold: nat := 5000

  /** What `clean_data` can raise. */
  datatype CleanError =
    | MissingColumns(names: seq<string>)    // selecting absent columns (KeyError)
    | NullStartDate                         // weekday of a null date (KeyError)
    | UnreadableDate(date: string)          // a date the library cannot parse
    | UnreadableTimestamp(text: string)     // a "date time" the library cannot parse
    | NoRows                                // an export with a header only (KeyError)
    | EndDateNotText                        // an End Date column without values (TypeError)

  // ---------------------------------------------------------------------------
  // Projection and renaming

  /** `row` is `raw` restricted to the twelve kept columns, `Date` and `Time`
      now under the names `Start Date` and `Start Time`. */
  predicate Renamed(raw: RawRow, row: Row) {
    && row.userId == raw.userId && row.city == raw.city && row.state == raw.state
    && row.zip == raw.zip && row.dateOfBirth == raw.dateOfBirth
    && row.startDate == raw.date && row.startTime == raw.time
    && row.endDate == raw.endDate && row.endTime == raw.endTime
    && row.hours == raw.hours && row.languages == raw.languages && row.gender == raw.gender
  }

  function ProjectRow(raw: RawRow): (row: Row)
    ensures Renamed(raw, row)
  {
    Row(raw.userId, raw.city, raw.state, raw.zip, raw.dateOfBirth, raw.date, raw.time,
        raw.endDate, raw.endTime, raw.hours, raw.languages, raw.gender)
  }

  /** Selects the twelve columns, failing with the list of those the header
      lacks. */
  function Project(t: RawTable): (r: Result<seq<Row>, CleanError>)
    ensures r.Failure? <==> exists c :: c in KeepColumns && c !in t.columns
    ensures r.Failure? ==>
      && r.error.MissingColumns? && |r.error.names| > 0
      && forall c :: c in r.error.names <==> c in KeepColumns && c !in t.columns
    ensures r.Success? ==>
      |r.value| == |t.rows| && forall i :: 0 <= i < |t.rows| ==> Renamed(t.rows[i], r.value[i])
  {
    var missing := Filter(KeepColumns, c => c !in t.columns);
    if |missing| > 0 then
      assert missing[0] in missing;
      Failure(MissingColumns(missing))
    else
      assert forall c :: c in KeepColumns && c !in t.columns ==> c in missing;
      Success(seq(|t.rows|, i requires 0 <= i < |t.rows| => ProjectRow(t.rows[i])))
  }

  /** Columns outside the twelve, and their values, do not influence the
      projection. */
  lemma ProjectIgnoresOtherColumns(t: RawTable, u: RawTable)
    requires forall c :: c in KeepColumns ==> (c in t.columns <==> c in u.columns)
    requires |t.rows| == |u.rows|
    requires forall i :: 0 <= i < |t.rows| ==> t.rows[i].(others := map[]) == u.rows[i].(others := map[])
    ensures Project(t) == Project(u)
  {
    var rt, ru := Project(t), Project(u);
    if rt.Success? {
      assert ru.Success?;
      forall i | 0 <= i < |t.rows|
        ensures rt.value[i] == ru.value[i]
      {
        assert t.rows[i].(others := map[]) == u.rows[i].(others := map[]);
      }
      assert rt.value == ru.value;
    } else {
      assert rt.error.names == Filter(KeepColumns, c => c !in t.columns);
      FilterAgree(KeepColumns, c => c !in t.columns, c => c !in u.columns);
    }
  }

  // ---------------------------------------------------------------------------
  // Weekday

  /** The weekday of a row's start date, or what looking it up raises. */
  function WeekdayOf(clock: Clock, r: Row): (w: Result<Weekday, CleanError>)
    ensures w.Success? <==> r.startDate.Some? && clock.dayOfWeek(r.startDate.value).Some?
    ensures w.Success? ==> DayNumber(w.value) == clock.dayOfWeek(r.startDate.value).value
    ensures r.startDate.None? ==> w == Failure(NullStartDate)
  {
    match r.startDate
    case None => Failure(NullStartDate)
    case Some(d) =>
      match clock.dayOfWeek(d)
      case None => Failure(UnreadableDate(d))
      case Some(k) => Success(DayName(k))
  }

  /** Every row's start date can be given a weekday. */
  predicate DatesReadable(rows: seq<Row>, clock: Clock) {
    forall i :: 0 <= i < |rows| ==> WeekdayOf(clock, rows[i]).Success?
  }

  // ---------------------------------------------------------------------------
  // Bulk-entry dates

  /** The mask that keeps a row unless its date is over the threshold. */
  function NotBulk(rows: seq<Row>, threshold: nat): Row -> bool {
    (r: Row) => r.startDate.None? || UserCount(rows, r.startDate.value) <= threshold
  }

  /** Drops every row whose start date's User ID count in `rows` exceeds
      `threshold`. */
  function ExcludeBulkDates(rows: seq<Row>, threshold: nat): (kept: seq<Row>)
    ensures forall r :: r in kept <==>
      r in rows && (r.startDate.None? || UserCount(rows, r.startDate.value) <= threshold)
  {
    Filter(rows, NotBulk(rows, threshold))
  }

  /** The exclusion as the source performs it: the group-count table, the set
      of dates above the threshold, then one membership test per row. */
  method ExcludeBulkDatesByCounts(rows: seq<Row>, threshold: nat) returns (kept: seq<Row>)
    ensures kept == ExcludeBulkDates(rows, threshold)
  {
    var counts := CountByDate(rows);
    var excluded := set d | d in counts && counts[d] > threshold;
    kept := [];
    var i := 0;
    while i < |rows|
      invariant 0 <= i <= |rows|
      invariant kept == Filter(rows[..i], NotBulk(rows, threshold))
    {
      var r := rows[i];
      assert rows[..i + 1] == rows[..i] + [r];
      FilterAppend(rows[..i], r, NotBulk(rows, threshold));
      if r.startDate.Some? {
        assert r.startDate.value in counts;
      }
      if !(r.startDate.Some? && r.startDate.value in excluded) {
        kept := kept + [r];
      }
      i := i + 1;
    }
    assert rows[..|rows|] == rows;
  }

  function DatedOn(d: string): Row -> bool {
    (r: Row) => r.startDate == Some(d)
  }

  /** The rows dated `d`, in order. */
  function OnDate(rows: seq<Row>, d: string): seq<Row> {
    Filter(rows, DatedOn(d))
  }

  /** The exclusion is by whole date: an excluded date loses all its rows, any
      other date keeps all of them, in order. */
  lemma WholeDateExclusion(rows: seq<Row>, threshold: nat, d: string)
    ensures UserCount(rows, d) > threshold ==> OnDate(ExcludeBulkDates(rows, threshold), d) == []
    ensures UserCount(rows, d) <= threshold ==> OnDate(ExcludeBulkDates(rows, threshold), d) == OnDate(rows, d)
  {
    if UserCount(rows, d) > threshold {
      FilterNone(ExcludeBulkDates(rows, threshold), DatedOn(d));
    } else {
      FilterFilter(rows, NotBulk(rows, threshold), DatedOn(d));
      FilterAgree(rows, Both(NotBulk(rows, threshold), DatedOn(d)), DatedOn(d));
    }
  }

  /** A second exclusion removes nothing: the dates that survive keep their
      full counts, which are within the threshold. */
  lemma ExcludeBulkDatesIdempotent(rows: seq<Row>, threshold: nat)
    ensures ExcludeBulkDates(ExcludeBulkDates(rows, threshold), threshold) == ExcludeBulkDates(rows, threshold)
  {
    var kept := ExcludeBulkDates(rows, threshold);
    forall r | r in kept
      ensures NotBulk(kept, threshold)(r)
    {
      if r.startDate.Some? {
        var d := r.startDate.value;
        UserCountFilter(rows, NotBulk(rows, threshold), d);
      }
    }
    FilterAll(kept, NotBulk(kept, threshold));
  }

  // ---------------------------------------------------------------------------
  // Null filters

  predicate HasStartDate(r: Row) { r.startDate.Some? }
  predicate HasStartTime(r: Row) { r.startTime.Some? }
  predicate HasZip(r: Row) { r.zip.Some? }

  /** The three fields every chart needs are present. */
  predicate Complete(r: Row) {
    HasStartDate(r) && HasStartTime(r) && HasZip(r)
  }

  /** The three successive null filters. */
  function DropIncomplete(rows: seq<Row>): (kept: seq<Row>)
    ensures forall r :: r in kept <==> r in rows && Complete(r)
  {
    Filter(Filter(Filter(rows, HasStartDate), HasStartTime), HasZip)
  }

  lemma DropIncompleteIsOneFilter(rows: seq<Row>)
    ensures DropIncomplete(rows) == Filter(rows, Complete)
  {
    FilterFilter(rows, HasStartDate, HasStartTime);
    FilterFilter(rows, Both(HasStartDate, HasStartTime), HasZip);
    FilterAgree(rows, Both(Both(HasStartDate, HasStartTime), HasZip), Complete);
  }

  /** The rows that reach the timestamp step. */
  function KeptRows(rows: seq<Row>): seq<Row> {
    DropIncomplete(ExcludeBulkDates(rows, BulkThreshold))
  }

  /** A row survives cleaning: complete, on a date within the threshold. */
  predicate Survives(rows: seq<Row>, r: Row) {
    Complete(r) && UserCount(rows, r.startDate.value) <= BulkThreshold
  }

  /** The surviving rows are exactly the input rows that survive, in input
      order. */
  lemma KeptRowsIsOneFilter(rows: seq<Row>)
    ensures KeptRows(rows) == Filter(rows, r => Survives(rows, r))
  {
    var bulk := NotBulk(rows, BulkThreshold);
    DropIncompleteIsOneFilter(ExcludeBulkDates(rows, BulkThreshold));
    FilterFilter(rows, bulk, Complete);
    FilterAgree(rows, Both(bulk, Complete), r => Survives(rows, r));
  }

  /** Cleaning the surviving rows again removes nothing. */
  lemma KeptRowsIdempotent(rows: seq<Row>)
    ensures KeptRows(KeptRows(rows)) == KeptRows(rows)
  {
    var kept := KeptRows(rows);
    KeptRowsIsOneFilter(rows);
    forall r | r in kept
      ensures NotBulk(kept, BulkThreshold)(r)
    {
      UserCountFilterBound(rows, r => Survives(rows, r), r.startDate.value);
    }
    FilterAll(kept, NotBulk(kept, BulkThreshold));
    FilterAll(kept, Complete);
    DropIncompleteIsOneFilter(kept);
  }

  // ---------------------------------------------------------------------------
  // Timestamps and calculated hours

  /** `pd.to_datetime(date + ' ' + time)`: null when either part is null, the
      parsed instant otherwise, raising when it does not parse. */
  function Instant(clock: Clock, date: Option<string>, time: Option<string>): Result<Option<int>, CleanError> {
    if date.None? || time.None? then Success(None)
    else
      var text := date.value + " " + time.value;
      match clock.instant(text)
      case None => Failure(UnreadableTimestamp(text))
      case Some(t) => Success(Some(t))
  }

  function StartOf(clock: Clock, r: Row): Result<Option<int>, CleanError> {
    Instant(clock, r.startDate, r.startTime)
  }

  function EndOf(clock: Clock, r: Row): Result<Option<int>, CleanError> {
    Instant(clock, r.endDate, r.endTime)
  }

  /** `(End - Start).seconds`: the elapsed time with whole days taken out, so
      a negative difference wraps to the previous day. */
  function CalculatedSeconds(start: Option<int>, end: Option<int>): (r: Option<DaySeconds>)
    ensures r.Some? <==> start.Some? && end.Some?
    ensures r.Some? ==> (end.value - start.value - r.value) % SecondsPerDay == 0
    ensures r.Some? && 0 <= end.value - start.value < SecondsPerDay ==> r.value == end.value - start.value
  {
    if start.Some? && end.Some? then Some((end.value - start.value) % SecondsPerDay) else None
  }

  /** A cleaned row carries what the source derives from its row. */
  predicate Derived(clock: Clock, c: Cleaned) {
    && WeekdayOf(clock, c.row) == Success(c.weekday)
    && StartOf(clock, c.row) == Success(c.start)
    && EndOf(clock, c.row) == Success(c.end)
    && c.calculatedSeconds == CalculatedSeconds(c.start, c.end)
  }

  /** A missing End Date or End Time makes the end instant and the calculated
      seconds null, and nothing else does: both are NaN exactly then. */
  predicate EndNullPropagates(c: Cleaned) {
    && (c.end.None? <==> c.row.endDate.None? || c.row.endTime.None?)
    && (c.calculatedSeconds.None? <==> c.row.endDate.None? || c.row.endTime.None?)
  }

  /** Cleaned rows built from complete rows have a start instant, and their
      end columns are null exactly where an end field is. */
  lemma DerivedEndsPropagate(clock: Clock, kept: seq<Row>, cs: seq<Cleaned>)
    requires forall k :: k in kept ==> Complete(k)
    requires RowsOf(cs) == kept && forall i :: 0 <= i < |kept| ==> Derived(clock, cs[i])
    ensures forall c :: c in cs ==> Complete(c.row) && c.start.Some? && Derived(clock, c) && EndNullPropagates(c)
  {
    forall c | c in cs
      ensures Complete(c.row) && c.start.Some? && Derived(clock, c) && EndNullPropagates(c)
    {
      var i :| 0 <= i < |cs| && cs[i] == c;
      assert c.row == kept[i];
      assert Complete(c.row) && Derived(clock, c);
      assert c.start.Some?;
    }
  }

  /** Every start timestamp of the kept rows parses. */
  predicate StartsReadable(kept: seq<Row>, clock: Clock) {
    forall i :: 0 <= i < |kept| ==> StartOf(clock, kept[i]).Success?
  }

  /** Every timestamp of the kept rows parses. */
  predicate TimestampsReadable(kept: seq<Row>, clock: Clock) {
    StartsReadable(kept, clock) && forall i :: 0 <= i < |kept| ==> EndOf(clock, kept[i]).Success?
  }

  /** `e` is what the first failing conversion raises: the whole start column
      is converted before the end column, each in row order. */
  predicate FirstTimestampError(kept: seq<Row>, clock: Clock, e: CleanError) {
    || (exists i :: 0 <= i < |kept| && StartOf(clock, kept[i]) == Failure(e) &&
          forall j :: 0 <= j < i ==> StartOf(clock, kept[j]).Success?)
    || (StartsReadable(kept, clock) &&
        exists i :: 0 <= i < |kept| && EndOf(clock, kept[i]) == Failure(e) &&
          forall j :: 0 <= j < i ==> EndOf(clock, kept[j]).Success?)
  }

  /** `e` is what the weekday of the first unreadable date raises. */
  predicate FirstDateError(rows: seq<Row>, clock: Clock, e: CleanError) {
    exists i :: 0 <= i < |rows| && WeekdayOf(clock, rows[i]) == Failure(e) &&
      forall j :: 0 <= j < i ==> WeekdayOf(clock, rows[j]).Success?
  }

  /** `read_csv` gives the End Date column text values only when some row of
      the export fills it; a column with no value at all is numeric, and
      appending a space to it raises. */
  predicate EndDatesText(rows: seq<Row>) {
    exists r :: r in rows && r.endDate.Some?
  }

  /** Adds the derived columns to the kept rows: all start instants are parsed
      before any end instant, as two column-wide conversions. `endText` says
      whether the End Date column holds text. */
  function Finish(kept: seq<Row>, clock: Clock, endText: bool): (r: Result<seq<Cleaned>, CleanError>)
    ensures r.Success? <==> DatesReadable(kept, clock) && TimestampsReadable(kept, clock) && endText
    ensures r.Success? ==> RowsOf(r.value) == kept && forall i :: 0 <= i < |kept| ==> Derived(clock, r.value[i])
    ensures DatesReadable(kept, clock) && r.Failure? ==>
      || (r.error.UnreadableTimestamp? && FirstTimestampError(kept, clock, r.error))
      || (r.error.EndDateNotText? && !endText && StartsReadable(kept, clock))
    ensures DatesReadable(kept, clock) && StartsReadable(kept, clock) && !endText ==> r == Failure(EndDateNotText)
  {
    var weekdays :- MapResult(kept, r => WeekdayOf(clock, r));
    var starts :- MapResult(kept, r => StartOf(clock, r));
    if !endText then Failure(EndDateNotText)
    else
      var ends :- MapResult(kept, r => EndOf(clock, r));
      Success(Attach(kept, clock, weekdays, starts, ends))
  }

  /** The cleaned rows, from the kept rows and their parsed columns. */
  function Attach(kept: seq<Row>, clock: Clock, weekdays: seq<Weekday>, starts: seq<Option<int>>, ends: seq<Option<int>>)
    : (cs: seq<Cleaned>)
    requires |weekdays| == |starts| == |ends| == |kept|
    requires forall i :: 0 <= i < |kept| ==>
      && WeekdayOf(clock, kept[i]) == Success(weekdays[i])
      && StartOf(clock, kept[i]) == Success(starts[i])
      && EndOf(clock, kept[i]) == Success(ends[i])
    ensures RowsOf(cs) == kept && forall i :: 0 <= i < |kept| ==> Derived(clock, cs[i])
  {
    var cs := seq(|kept|, i requires 0 <= i < |kept| =>
      Cleaned(kept[i], weekdays[i], starts[i], ends[i], CalculatedSeconds(starts[i], ends[i])));
    assert RowsOf(cs) == kept;
    cs
  }

  // ---------------------------------------------------------------------------
  // The whole cleaning step

  /** The kept rows are complete input rows, so their dates have weekdays
      whenever every input date does. */
  lemma KeptRowsReadable(rows: seq<Row>, clock: Clock)
    ensures forall r :: r in KeptRows(rows) ==> r in rows && Complete(r)
    ensures DatesReadable(rows, clock) ==> DatesReadable(KeptRows(rows), clock)
  {
    var kept := KeptRows(rows);
    if DatesReadable(rows, clock) {
      forall i | 0 <= i < |kept|
        ensures WeekdayOf(clock, kept[i]).Success?
      {
        assert kept[i] in rows;
        var j :| 0 <= j < |rows| && rows[j] == kept[i];
      }
    }
  }

  /** Cleaning succeeds: the columns exist, every date has a weekday, there is
      a row, every kept row's timestamps parse, and End Date holds text. */
  predicate Cleanable(t: RawTable, clock: Clock) {
    && Project(t).Success?
    && DatesReadable(Project(t).value, clock)
    && |t.rows| > 0
    && TimestampsReadable(KeptRows(Project(t).value), clock)
    && EndDatesText(Project(t).value)
  }

  function Clean(t: RawTable, clock: Clock): (r: Result<seq<Cleaned>, CleanError>)
    ensures r.Success? <==> Cleanable(t, clock)
    ensures Project(t).Failure? ==> r == Failure(Project(t).error)
    ensures Project(t).Success? && !DatesReadable(Project(t).value, clock) ==>
      r.Failure? && (r.error.NullStartDate? || r.error.UnreadableDate?)
    ensures Project(t).Success? && |t.rows| == 0 ==> r == Failure(NoRows)
    ensures Project(t).Success? && DatesReadable(Project(t).value, clock) && |t.rows| > 0 && r.Failure? ==>
      r.error.UnreadableTimestamp? || r.error.EndDateNotText?
    ensures r.Success? ==> RowsOf(r.value) == KeptRows(Project(t).value)
    ensures r.Success? ==> forall c :: c in r.value ==> Complete(c.row) && c.start.Some? && Derived(clock, c)
    ensures r.Success? ==> forall c :: c in r.value ==> EndNullPropagates(c)
  {
    var rows :- Project(t);
    CleanRows(rows, clock)
  }

  /** The steps after the projection: the weekdays of all rows, the two
      filters, then the derived columns of the rows they keep. With no rows,
      the bulk-date mask is an empty object column, which selects no column,
      so the next filter finds no `Start Date`. */
  function CleanRows(rows: seq<Row>, clock: Clock): (r: Result<seq<Cleaned>, CleanError>)
    ensures r.Success? <==>
      DatesReadable(rows, clock) && |rows| > 0 && TimestampsReadable(KeptRows(rows), clock) && EndDatesText(rows)
    ensures !DatesReadable(rows, clock) ==>
      r.Failure? && (r.error.NullStartDate? || r.error.UnreadableDate?) && FirstDateError(rows, clock, r.error)
    ensures |rows| == 0 ==> r == Failure(NoRows)
    ensures DatesReadable(rows, clock) && |rows| > 0 && r.Failure? ==>
      || (r.error.UnreadableTimestamp? && FirstTimestampError(KeptRows(rows), clock, r.error))
      || (r.error.EndDateNotText? && !EndDatesText(rows) && StartsReadable(KeptRows(rows), clock))
    ensures DatesReadable(rows, clock) && |rows| > 0 && StartsReadable(KeptRows(rows), clock) && !EndDatesText(rows) ==>
      r == Failure(EndDateNotText)
    ensures r.Success? ==> RowsOf(r.value) == KeptRows(rows)
    ensures r.Success? ==> forall c :: c in r.value ==> Complete(c.row) && c.start.Some? && Derived(clock, c)
    ensures r.Success? ==> forall c :: c in r.value ==> EndNullPropagates(c)
  {
    var weekdays :- MapResult(rows, r => WeekdayOf(clock, r));
    if |rows| == 0 then Failure(NoRows)
    else
      var kept := KeptRows(rows);
      KeptRowsReadable(rows, clock);
      assert forall k :: k in kept ==> Complete(k);
      var out := Finish(kept, clock, EndDatesText(rows));
      if out.Success? then DerivedEndsPropagate(clock, kept, out.value); out else out
  }

  /** A row is in the cleaned table exactly when it is an input row that has
      Start Date, Start Time and Opportunity Zip and whose date's count is
      within the threshold. */
  lemma CleanKeepsExactly(t: RawTable, clock: Clock, row: Row)
    ensures Clean(t, clock).Success? ==>
      (row in RowsOf(Clean(t, clock).value) <==> row in Project(t).value && Survives(Project(t).value, row))
  {
  }

  /** Cleaning only deletes rows: the cleaned rows, field values unchanged,
      appear in the projected input in the same order. */
  lemma CleanIsSubsequence(t: RawTable, clock: Clock)
    ensures Clean(t, clock).Success? ==> Subsequence(RowsOf(Clean(t, clock).value), Project(t).value)
  {
    if Clean(t, clock).Success? {
      var rows := Project(t).value;
      KeptRowsIsOneFilter(rows);
      FilterIsSubsequence(rows, r => Survives(rows, r));
    }
  }
}
