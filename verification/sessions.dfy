/** `hoursPlot`: the session lengths the histogram is drawn from. */
module Sessions {
  import opened Outcomes
  import opened Records
  import opened Seqs
  import opened Cleaning

  const MaxSessionHours: real := 24.0

  /** `Calculated Hours`: the calculated seconds over 3600. */
  function CalculatedHours(c: Cleaned): (h: Option<real>)
    ensures h.Some? <==> c.calculatedSeconds.Some?
    ensures h.Some? ==> 0.0 <= h.value < MaxSessionHours
    ensures h.Some? ==> h.value * 3600.0 == c.calculatedSeconds.value as real
  {
    match c.calculatedSeconds
    case None => None
    case Some(s) => Some(s as real / 3600.0)
  }

  /** A session from 9:00 AM to 5:00 PM on its own date has 8 calculated
      hours; one whose end reads an hour before its start, because the end
      date was left on the start date, wraps to 23 hours. */
  lemma CalculatedHoursExamples(c: Cleaned, start: int)
    requires c.start == Some(start)
    requires c.calculatedSeconds == CalculatedSeconds(c.start, c.end)
    ensures c.end == Some(start + 8 * 3600) ==> CalculatedHours(c) == Some(8.0)
    ensures c.end == Some(start - 3600) ==> CalculatedHours(c) == Some(23.0)
  {
  }

  /** The row passes `df['Hours'] <= 24`; a null Hours compares false. */
  predicate WithinDay(c: Cleaned) {
    c.row.hours.Some? && c.row.hours.value <= MaxSessionHours
  }

  /** `Hours + Calculated Hours * (Hours == 0)` as written, for a row that
      passed the filter: a null Calculated Hours makes the product, and so
      the sum, null even when Hours is not zero. */
  function ReplacedHoursAsWritten(c: Cleaned): (r: Option<real>)
    requires WithinDay(c)
    ensures r.None? <==> c.calculatedSeconds.None?
  {
    match CalculatedHours(c)
    case None => None
    case Some(computed) => Some(c.row.hours.value + (if c.row.hours.value == 0.0 then computed else 0.0))
  }

  /** The session length the replacement intends: Calculated Hours in place of
      a zero Hours, Hours itself otherwise. */
  function SessionLength(c: Cleaned): (r: Option<real>)
    requires WithinDay(c)
    ensures c.row.hours == Some(0.0) ==> r == CalculatedHours(c)
    ensures c.row.hours != Some(0.0) ==> r == c.row.hours
    ensures r.Some? ==> r.value <= MaxSessionHours
  {
    if c.row.hours.value == 0.0 then CalculatedHours(c) else c.row.hours
  }

  /** The two agree whenever Calculated Hours is present. */
  lemma AsWrittenAgreesWithCalculatedHours(c: Cleaned)
    requires WithinDay(c) && c.calculatedSeconds.Some?
    ensures ReplacedHoursAsWritten(c) == SessionLength(c)
  {
  }

  /** A one-hour session with no end date: the source's value is null (the
      session vanishes from the histogram), the intended value is 1 hour. */
  lemma AsWrittenLosesSessionWithoutEnd()
    ensures
      var c := Cleaned(Row(Some("u"), None, None, Some("92101"), None, Some("1/5/2023"), Some("9:00 AM"),
                           None, None, Some(1.0), None, None), Thursday, Some(0), None, None);
      WithinDay(c) && ReplacedHoursAsWritten(c) == None && SessionLength(c) == Some(1.0)
  {
  }

  /** The value a row contributes to the histogram, if any: with `raw` its
      Hours, otherwise the replacement as written for a row within a day. */
  function Binned(c: Cleaned, raw: bool): Option<real> {
    if raw then c.row.hours
    else if WithinDay(c) then ReplacedHoursAsWritten(c)
    else None
  }

  /** The rows whose binned value is `x`. */
  function BinnedAs(raw: bool, x: real): Cleaned -> bool {
    c => Binned(c, raw) == Some(x)
  }

  /** The values binned by the histogram, in row order (null values are not
      binned). Each value occurs once per row that contributes it. */
  function SessionSample(rows: seq<Cleaned>, raw: bool): (sample: seq<real>)
    ensures |sample| <= |rows|
    ensures !raw ==> forall x :: x in sample <==>
      exists c :: c in rows && WithinDay(c) && ReplacedHoursAsWritten(c) == Some(x)
    ensures raw ==> forall x :: x in sample <==> exists c :: c in rows && c.row.hours == Some(x)
    ensures forall x :: multiset(sample)[x] == |Filter(rows, BinnedAs(raw, x))|
  {
    if |rows| == 0 then []
    else
      var init, last := rows[..|rows| - 1], rows[|rows| - 1];
      assert forall c :: c in rows <==> c in init || c == last;
      var value := Binned(last, raw);
      SessionSample(init, raw) + (if value.Some? then [value.value] else [])
  }

  /** The rows within a day whose session length is `x`. */
  function LastsFor(x: real): Cleaned -> bool {
    c => WithinDay(c) && SessionLength(c) == Some(x)
  }

  /** The sample the replacement intends: the session length of every row
      within a day, none of them over 24 hours, once per row. */
  function IntendedSessionSample(rows: seq<Cleaned>): (sample: seq<real>)
    ensures |sample| <= |rows|
    ensures forall x :: x in sample ==> x <= MaxSessionHours
    ensures forall x :: x in sample <==> exists c :: c in rows && WithinDay(c) && SessionLength(c) == Some(x)
    ensures forall x :: multiset(sample)[x] == |Filter(rows, LastsFor(x))|
  {
    if |rows| == 0 then []
    else
      var init, last := rows[..|rows| - 1], rows[|rows| - 1];
      assert forall c :: c in rows <==> c in init || c == last;
      var value := if WithinDay(last) then SessionLength(last) else None;
      IntendedSessionSample(init) + (if value.Some? then [value.value] else [])
  }

  /** The sample as written and the intended one are the same sequence
      whenever every row within a day has its Calculated Hours. */
  lemma {:induction false} SamplesAgree(rows: seq<Cleaned>)
    requires forall c :: c in rows && WithinDay(c) ==> c.calculatedSeconds.Some?
    ensures SessionSample(rows, false) == IntendedSessionSample(rows)
    decreases |rows|
  {
    if |rows| > 0 {
      var init, last := rows[..|rows| - 1], rows[|rows| - 1];
      assert forall c :: c in init ==> c in rows;
      SamplesAgree(init);
      if WithinDay(last) {
        AsWrittenAgreesWithCalculatedHours(last);
      }
    }
  }
}
