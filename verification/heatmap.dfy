/** `weektimeHeatmap`: each arrival is placed by weekday and four-hour slot of
    its start time, and each cell averaged over 52 weeks. */
module Heatmap {
  import opened Outcomes
  import opened Records
  import opened Seqs
  import opened PyText

  // ---------------------------------------------------------------------------
  // floor_hour

  /** `floor_hour`: reads the hour before the last six characters and the
      minutes two to four characters from the end, adds 1200 when the text
      starts with "12" and 1200 more for "P" in the next-to-last place, and
      returns the hundreds of the total modulo 2400. `None` where `int()`
      raises; the Python `%` and `//` agree with Dafny's here because the
      divisors are positive and the remainder is never negative. */
  function FloorHour(s: string): (r: Option<int>)
    ensures r.Some? ==> 0 <= r.value < 24
  {
    if |s| < 7 then None
    else
      var hour := ParseInt(s[..|s| - 6]);
      var minute := ParseInt(s[|s| - 5..|s| - 3]);
      if hour.None? || minute.None? then None
      else Some(HourOfDay(hour.value, minute.value, s[..2] == "12", s[|s| - 2] == 'P'))
  }

  /** The arithmetic of `floor_hour` once its slices are read. */
  function HourOfDay(h: int, m: int, twelve: bool, pm: bool): (r: int)
    ensures 0 <= r < 24
  {
    var t := h * 100 + m + (if twelve then 1200 else 0) + (if pm then 1200 else 0);
    (t % 2400) / 100
  }

  /** The 24-hour reading of a 12-hour clock hour: 12 AM is 0, 12 PM is 12,
      other PM hours gain 12. */
  function MilitaryHour(h: int, pm: bool): (r: int)
    requires 1 <= h <= 12
    ensures 0 <= r < 24
    ensures pm <==> r >= 12
    ensures r % 12 == h % 12
  {
    if h == 12 then (if pm then 12 else 0)
    else if pm then h + 12
    else h
  }

  /** "H:MM AM", "HH:MM PM" and the like. */
  function ClockText(h: nat, m: nat, pm: bool, padded: bool): string
    requires h < 100 && m < 100
  {
    ShortText(h, padded) + ":" + ShortText(m, true) + " " + (if pm then "PM" else "AM")
  }

  /** The hour is spelled "12" exactly for hour 12. */
  lemma HourTextTwelve(h: nat, padded: bool)
    requires 1 <= h <= 12
    ensures ShortText(h, padded) == "12" <==> h == 12
  {
    if padded && h < 10 {
      assert ShortText(h, padded)[0] == '0';
    } else if h == 12 {
      assert NatText(12) == NatText(1) + [DigitChar(2)];
    }
  }

  /** Where `floor_hour`'s slices fall in a clock text. */
  lemma ClockTextSlices(h: nat, m: nat, pm: bool, padded: bool)
    requires 1 <= h <= 12 && m < 100
    ensures var s := ClockText(h, m, pm, padded);
      && |s| >= 7
      && s[..|s| - 6] == ShortText(h, padded)
      && s[|s| - 5..|s| - 3] == ShortText(m, true)
      && s[|s| - 2] == (if pm then 'P' else 'A')
      && (s[..2] == "12" <==> h == 12)
  {
    var hour := ShortText(h, padded);
    var s := ClockText(h, m, pm, padded);
    HourTextTwelve(h, padded);
    assert |s| == |hour| + 6;
    if |hour| == 1 {
      assert s[..2] == hour + ":";
      assert s[..2][1] == ':';
    } else {
      assert s[..2] == hour;
    }
  }

  /** The arithmetic of `floor_hour` on a 12-hour reading. */
  lemma FloorHourArithmetic(h: int, m: int, pm: bool)
    requires 1 <= h <= 12 && 0 <= m < 100
    ensures HourOfDay(h, m, h == 12, pm) == MilitaryHour(h, pm)
  {
    var t := h * 100 + m + (if h == 12 then 1200 else 0) + (if pm then 1200 else 0);
    if h == 12 {
      if pm {
        assert t == 3600 + m;
        assert t % 2400 == 1200 + m;
      } else {
        assert t == 2400 + m;
        assert t % 2400 == m;
      }
    } else {
      assert t < 2400;
      assert t % 2400 == t;
      assert t / 100 == h + (if pm then 12 else 0);
    }
  }

  lemma FloorHourReads(s: string, h: int, m: int)
    ensures |s| >= 7 && ParseInt(s[..|s| - 6]) == Some(h) && ParseInt(s[|s| - 5..|s| - 3]) == Some(m) ==>
      FloorHour(s) == Some(HourOfDay(h, m, s[..2] == "12", s[|s| - 2] == 'P'))
  {
  }

  /** `floor_hour` reads every well-formed 12-hour clock time as its 24-hour
      hour. */
  lemma FloorHourOfClockText(h: nat, m: nat, pm: bool, padded: bool)
    requires 1 <= h <= 12 && m < 100
    ensures FloorHour(ClockText(h, m, pm, padded)) == Some(MilitaryHour(h, pm))
  {
    var s := ClockText(h, m, pm, padded);
    ClockTextNumbers(h, m, pm, padded);
    FloorHourArithmetic(h, m, pm);
    FloorHourReads(s, h, m);
  }

  /** The two slices `floor_hour` hands to `int()` read back as the hour and
      the minutes. */
  lemma ClockTextNumbers(h: nat, m: nat, pm: bool, padded: bool)
    requires 1 <= h <= 12 && m < 100
    ensures var s := ClockText(h, m, pm, padded);
      && |s| >= 7
      && ParseInt(s[..|s| - 6]) == Some(h as int)
      && ParseInt(s[|s| - 5..|s| - 3]) == Some(m as int)
      && s[|s| - 2] == (if pm then 'P' else 'A')
      && (s[..2] == "12" <==> h == 12)
  {
    ClockTextSlices(h, m, pm, padded);
    ParseIntDigits(ShortText(h, padded));
    ParseIntDigits(ShortText(m, true));
  }

  // ---------------------------------------------------------------------------
  // Four-hour slots

  /** The slots the heatmap's rows stand for, midnight first. */
  const Buckets: seq<int> := [0, 4, 8, 12, 16, 20]

  /** `(h // 4) * 4`: the start of the four-hour slot holding hour `h`. */
  function Bucket(h: int): (b: int)
    ensures b % 4 == 0 && b <= h < b + 4
    ensures 0 <= h < 24 ==> b in Buckets
  {
    (h / 4) * 4
  }

  // ---------------------------------------------------------------------------
  // The table of weekly averages

  /** The weekday columns, in the order the heatmap selects them. */
  const WeekOrder: seq<Weekday> := [Sunday, Monday, Tuesday, Wednesday, Thursday, Friday, Saturday]

  /** The year is taken to be 52 weeks. */
  const WeeksPerYear: real := 52.0

  /** What building the table can raise. */
  datatype HeatmapError =
    | NullStartTime                        // floor_hour of a null (TypeError)
    | UnreadableTime(text: string)         // int() of a slice (ValueError)
    | MissingWeekdays(days: seq<Weekday>)  // selecting absent weekday columns (KeyError)

  /** The `Time of Day` slot of a row, or what computing it raises. */
  function TimeOfDay(c: Cleaned): (r: Result<int, HeatmapError>)
    ensures r.Success? <==> c.row.startTime.Some? && FloorHour(c.row.startTime.value).Some?
    ensures r.Success? ==> r.value in Buckets && r.value <= FloorHour(c.row.startTime.value).value < r.value + 4
  {
    match c.row.startTime
    case None => Failure(NullStartTime)
    case Some(s) =>
      match FloorHour(s)
      case None => Failure(UnreadableTime(s))
      case Some(h) => Success(Bucket(h))
  }

  /** The row is counted in the cell of weekday `d` and slot `b`: the count
      aggregation counts non-null User IDs. */
  predicate InCell(c: Cleaned, d: Weekday, b: int) {
    c.row.userId.Some? && c.weekday == d && TimeOfDay(c) == Success(b)
  }

  /** The count in one cell. */
  function Arrivals(rows: seq<Cleaned>, d: Weekday, b: int): (n: nat)
    ensures n <= |rows|
  {
    if |rows| == 0 then 0
    else Arrivals(rows[..|rows| - 1], d, b) + (if InCell(rows[|rows| - 1], d, b) then 1 else 0)
  }

  /** The rows with a User ID: every one the table can count. */
  function ArrivalTotal(rows: seq<Cleaned>): (n: nat)
    ensures n <= |rows|
  {
    if |rows| == 0 then 0
    else ArrivalTotal(rows[..|rows| - 1]) + (if rows[|rows| - 1].row.userId.Some? then 1 else 0)
  }

  /** Some row falls on weekday `d`, so the pivot has a column for it. */
  predicate Present(rows: seq<Cleaned>, d: Weekday) {
    exists i :: 0 <= i < |rows| && rows[i].weekday == d
  }

  /** The heatmap's values: one row per slot of `Buckets`, one column per
      weekday of `WeekOrder`, each the cell's count over 52. Fails when a
      start time cannot be read, then when a weekday has no rows at all. */
  function WeeklyAverages(rows: seq<Cleaned>): (r: Result<seq<seq<real>>, HeatmapError>)
    ensures r.Success? <==>
      (forall i :: 0 <= i < |rows| ==> TimeOfDay(rows[i]).Success?) && forall d: Weekday :: Present(rows, d)
    ensures r.Failure? && (forall i :: 0 <= i < |rows| ==> TimeOfDay(rows[i]).Success?) ==>
      r.error.MissingWeekdays? && forall d :: d in r.error.days <==> d in WeekOrder && !Present(rows, d)
    ensures r.Success? ==>
      && |r.value| == |Buckets|
      && forall b :: 0 <= b < |Buckets| ==>
        && |r.value[b]| == |WeekOrder|
        && forall d :: 0 <= d < |WeekOrder| ==>
          r.value[b][d] * WeeksPerYear == Arrivals(rows, WeekOrder[d], Buckets[b]) as real
  {
    var slots :- MapResult(rows, c => TimeOfDay(c));
    var missing := AbsentDays(rows);
    if |missing| > 0 then Failure(MissingWeekdays(missing))
    else Success(Averages(rows))
  }

  /** The weekday columns the pivot lacks, in `WeekOrder` order. */
  function AbsentDays(rows: seq<Cleaned>): (ds: seq<Weekday>)
    ensures forall d :: d in ds <==> d in WeekOrder && !Present(rows, d)
    ensures |ds| == 0 <==> forall d: Weekday :: Present(rows, d)
  {
    var ds := Filter(WeekOrder, d => !Present(rows, d));
    WeekOrderComplete();
    assert |ds| > 0 ==> ds[0] in ds;
    ds
  }

  /** Every cell's count over 52. */
  function Averages(rows: seq<Cleaned>): (grid: seq<seq<real>>)
    ensures |grid| == |Buckets|
    ensures forall b :: 0 <= b < |Buckets| ==>
      && |grid[b]| == |WeekOrder|
      && forall d :: 0 <= d < |WeekOrder| ==>
        grid[b][d] * WeeksPerYear == Arrivals(rows, WeekOrder[d], Buckets[b]) as real
  {
    seq(|Buckets|, b requires 0 <= b < |Buckets| =>
      seq(|WeekOrder|, d requires 0 <= d < |WeekOrder| =>
        Arrivals(rows, WeekOrder[d], Buckets[b]) as real / WeeksPerYear))
  }

  // ---------------------------------------------------------------------------
  // Every arrival lands in exactly one cell

  /** The counts of slot `b` across the weekdays `ds`. */
  function DaySum(rows: seq<Cleaned>, b: int, ds: seq<Weekday>): nat {
    if |ds| == 0 then 0 else DaySum(rows, b, ds[..|ds| - 1]) + Arrivals(rows, ds[|ds| - 1], b)
  }

  /** The counts of the slots `bs` across the whole week. */
  function GridSum(rows: seq<Cleaned>, bs: seq<int>): nat {
    if |bs| == 0 then 0 else GridSum(rows, bs[..|bs| - 1]) + DaySum(rows, bs[|bs| - 1], WeekOrder)
  }

  lemma ArrivalsAppend(rows: seq<Cleaned>, x: Cleaned, d: Weekday, b: int)
    ensures Arrivals(rows + [x], d, b) == Arrivals(rows, d, b) + (if InCell(x, d, b) then 1 else 0)
  {
    assert (rows + [x])[..|rows|] == rows;
  }

  lemma {:induction false} DaySumAppend(rows: seq<Cleaned>, x: Cleaned, b: int, ds: seq<Weekday>)
    requires Distinct(ds)
    ensures DaySum(rows + [x], b, ds) ==
      DaySum(rows, b, ds) + (if x.row.userId.Some? && TimeOfDay(x) == Success(b) && x.weekday in ds then 1 else 0)
    decreases |ds|
  {
    if |ds| > 0 {
      var init, last := ds[..|ds| - 1], ds[|ds| - 1];
      assert ds == init + [last];
      DaySumAppend(rows, x, b, init);
      ArrivalsAppend(rows, x, last, b);
    }
  }

  lemma WeekOrderComplete()
    ensures forall d: Weekday :: d in WeekOrder
    ensures Distinct(WeekOrder)
  {
    forall d: Weekday
      ensures d in WeekOrder
    {
      var i := if d == Sunday then 0 else DayNumber(d) + 1;
      assert WeekOrder[i] == d;
    }
  }

  lemma BucketsDistinct()
    ensures Distinct(Buckets)
  {
  }

  lemma {:induction false} GridSumAppend(rows: seq<Cleaned>, x: Cleaned, bs: seq<int>)
    requires Distinct(bs)
    ensures GridSum(rows + [x], bs) ==
      GridSum(rows, bs) + (if x.row.userId.Some? && TimeOfDay(x).Success? && TimeOfDay(x).value in bs then 1 else 0)
    decreases |bs|
  {
    if |bs| > 0 {
      var init, last := bs[..|bs| - 1], bs[|bs| - 1];
      assert bs == init + [last];
      GridSumAppend(rows, x, init);
      WeekOrderComplete();
      DaySumAppend(rows, x, last, WeekOrder);
    }
  }

  lemma {:induction false} GridSumEmpty(bs: seq<int>)
    ensures GridSum([], bs) == 0
    decreases |bs|
  {
    if |bs| > 0 {
      GridSumEmpty(bs[..|bs| - 1]);
      DaySumEmpty(bs[|bs| - 1], WeekOrder);
    }
  }

  lemma {:induction false} DaySumEmpty(b: int, ds: seq<Weekday>)
    ensures DaySum([], b, ds) == 0
    decreases |ds|
  {
    if |ds| > 0 {
      DaySumEmpty(b, ds[..|ds| - 1]);
    }
  }

  /** Summing over distinct slots that hold every row's slot counts every
      row with a User ID once. */
  lemma {:induction false} GridSumCountsAll(rows: seq<Cleaned>, bs: seq<int>)
    requires Distinct(bs)
    requires forall i :: 0 <= i < |rows| ==> TimeOfDay(rows[i]).Success? && TimeOfDay(rows[i]).value in bs
    ensures GridSum(rows, bs) == ArrivalTotal(rows)
    decreases |rows|
  {
    if |rows| == 0 {
      GridSumEmpty(bs);
    } else {
      var init, last := rows[..|rows| - 1], rows[|rows| - 1];
      forall i | 0 <= i < |init|
        ensures TimeOfDay(init[i]).Success? && TimeOfDay(init[i]).value in bs
      {
        assert init[i] == rows[i];
      }
      GridSumCountsAll(init, bs);
      GridSumAppend(init, last, bs);
      assert TimeOfDay(last).Success? && TimeOfDay(last).value in bs;
      assert rows == init + [last];
      assert ArrivalTotal(rows) == ArrivalTotal(init) + (if last.row.userId.Some? then 1 else 0);
    }
  }

  /** When every start time is readable, the cells together count every row
      with a User ID exactly once: the table times 52 sums to the arrivals. */
  lemma EveryArrivalInOneCell(rows: seq<Cleaned>)
    requires forall i :: 0 <= i < |rows| ==> TimeOfDay(rows[i]).Success?
    ensures GridSum(rows, Buckets) == ArrivalTotal(rows)
  {
    BucketsDistinct();
    GridSumCountsAll(rows, Buckets);
  }
}
