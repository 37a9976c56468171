/** `participationYear`: daily counts, their months, and the year-average
    line drawn across the twelve monthly panels. */
module Participation {
  import opened Outcomes
  import opened Records
  import opened Seqs
  import opened PyText
  import opened Grouping

  /** The month of a date string: `int(s[0])` when the second character is
      "/", `int(s[:2])` otherwise, then looked up among months 1 to 12.
      `None` where indexing, `int()` or the month lookup raises. */
  function MonthOf(s: string): (r: Option<int>)
    ensures r.Some? ==> 1 <= r.value <= 12
  {
    if |s| < 2 then None
    else
      var n := if s[1] != '/' then ParseInt(s[..2]) else ParseInt(s[..1]);
      if n.Some? && 1 <= n.value <= 12 then n else None
  }

  /** `MonthOf` once its slice is read. */
  lemma MonthOfReads(s: string, m: int)
    ensures 1 <= m <= 12 && |s| >= 2 && ParseInt(if s[1] != '/' then s[..2] else s[..1]) == Some(m) ==>
      MonthOf(s) == Some(m)
  {
  }

  /** `MonthOf` reads the month of "M/D/YYYY" and "MM/DD/YYYY" dates. */
  lemma MonthOfDateText(m: nat, padded: bool, rest: string)
    requires 1 <= m <= 12
    ensures MonthOf(ShortText(m, padded) + "/" + rest) == Some(m)
  {
    var month := ShortText(m, padded);
    var s := month + "/" + rest;
    ParseIntDigits(month);
    assert ParseInt(month) == Some(m as int);
    if |month| == 1 {
      assert s[1] == '/';
      assert s[..1] == month;
    } else {
      assert s[1] == month[1] && IsDigit(month[1]);
      assert s[..2] == month;
    }
    MonthOfReads(s, m);
  }

  /** The group keys of `groupby('Start Date')`: each non-null date once. The
      source sorts them; the sums below do not depend on the order. */
  function DistinctDates(rows: seq<Row>): (ds: seq<string>)
    ensures Distinct(ds)
    ensures forall d :: d in ds <==> d in DatesOf(rows)
  {
    if |rows| == 0 then []
    else
      var init, last := rows[..|rows| - 1], rows[|rows| - 1];
      var before := DistinctDates(init);
      assert forall r :: r in rows <==> r in init || r == last;
      match last.startDate
      case None => before
      case Some(d) => if d in before then before else before + [d]
  }

  /** The per-date counts of the dates `ds`, added up. */
  function SumCounts(rows: seq<Row>, ds: seq<string>): nat {
    if |ds| == 0 then 0 else SumCounts(rows, ds[..|ds| - 1]) + UserCount(rows, ds[|ds| - 1])
  }

  /** The `Volunteers` of month `m`: the counts of the dates of `ds` whose
      month, as `month` reads it, is `m`. */
  function MonthTotal(rows: seq<Row>, ds: seq<string>, month: string -> Option<int>, m: int): nat {
    if |ds| == 0 then 0
    else
      var d := ds[|ds| - 1];
      MonthTotal(rows, ds[..|ds| - 1], month, m) + (if month(d) == Some(m) then UserCount(rows, d) else 0)
  }

  /** The month totals of months 1 to `k`, added up. */
  function MonthsUpTo(rows: seq<Row>, ds: seq<string>, month: string -> Option<int>, k: nat): nat {
    if k == 0 then 0 else MonthsUpTo(rows, ds, month, k - 1) + MonthTotal(rows, ds, month, k)
  }

  /** `groupby('Month')['Volunteers'].sum().sum()`: the twelve month totals
      added up, once every date has its month. Grouping by month only
      regroups the daily counts. */
  function YearTotal(rows: seq<Row>, ds: seq<string>): (total: nat)
    requires forall d :: d in ds ==> MonthOf(d).Some?
    ensures total == SumCounts(rows, ds)
  {
    MonthsAddUp(rows, ds, MonthOf);
    MonthsUpTo(rows, ds, MonthOf, 12)
  }

  /** The first of `ds` whose month cannot be read, if any. */
  function FirstUnreadable(ds: seq<string>): (r: Option<string>)
    ensures r.None? <==> forall d :: d in ds ==> MonthOf(d).Some?
    ensures r.Some? ==> r.value in ds && MonthOf(r.value).None?
  {
    if |ds| == 0 then None
    else if MonthOf(ds[0]).None? then Some(ds[0])
    else
      var rest := FirstUnreadable(ds[1..]);
      assert forall d :: d in ds <==> d == ds[0] || d in ds[1..];
      rest
  }

  /** What computing the year average can raise. */
  datatype ParticipationError =
    | UnreadableMonth(date: string)   // the month of a date cannot be read

  /** `groupby('Month')['Volunteers'].sum().sum() / df.shape[0]`: the month
      totals added up, over the number of distinct dates. With no dates at all
      the division is numpy's 0 / 0, which gives NaN (`None`), not an error. */
  function YearAverage(rows: seq<Row>): (r: Result<Option<real>, ParticipationError>)
    ensures r.Success? <==> forall d :: d in DatesOf(rows) ==> MonthOf(d).Some?
    ensures r.Failure? ==> r.error.date in DatesOf(rows) && MonthOf(r.error.date).None?
    ensures r.Success? ==> (r.value.None? <==> |DatesOf(rows)| == 0)
    ensures r.Success? && r.value.Some? ==>
      r.value.value == CountedRows(rows) as real / |DistinctDates(rows)| as real
  {
    var ds := DistinctDates(rows);
    var unreadable := FirstUnreadable(ds);
    if unreadable.Some? then
      Failure(UnreadableMonth(unreadable.value))
    else if |ds| == 0 then
      assert forall d :: d !in DatesOf(rows);
      Success(None)
    else
      assert ds[0] in DatesOf(rows);
      DatesAddUp(rows);
      Success(Some(YearTotal(rows, ds) as real / |ds| as real))
  }

  // ---------------------------------------------------------------------------
  // Grouping by month only regroups the daily counts

  lemma MonthTotalAppend(rows: seq<Row>, ds: seq<string>, month: string -> Option<int>, d: string, m: int)
    ensures MonthTotal(rows, ds + [d], month, m) ==
      MonthTotal(rows, ds, month, m) + (if month(d) == Some(m) then UserCount(rows, d) else 0)
  {
    assert (ds + [d])[..|ds|] == ds;
  }

  lemma {:induction false} MonthsUpToAppend(rows: seq<Row>, ds: seq<string>, month: string -> Option<int>, d: string, k: nat)
    ensures MonthsUpTo(rows, ds + [d], month, k) ==
      MonthsUpTo(rows, ds, month, k) + (if month(d).Some? && 1 <= month(d).value <= k then UserCount(rows, d) else 0)
  {
    if k > 0 {
      MonthsUpToAppend(rows, ds, month, d, k - 1);
      MonthTotalAppend(rows, ds, month, d, k);
    }
  }

  lemma {:induction false} MonthsUpToEmpty(rows: seq<Row>, month: string -> Option<int>, k: nat)
    ensures MonthsUpTo(rows, [], month, k) == 0
  {
    if k > 0 {
      MonthsUpToEmpty(rows, month, k - 1);
    }
  }

  /** When every date falls in one of the twelve months, the twelve month
      totals add up to the sum of the daily counts: grouping by month only
      regroups them. */
  lemma {:induction false} MonthsAddUp(rows: seq<Row>, ds: seq<string>, month: string -> Option<int>)
    requires forall d :: d in ds ==> month(d).Some? && 1 <= month(d).value <= 12
    ensures MonthsUpTo(rows, ds, month, 12) == SumCounts(rows, ds)
    decreases |ds|
  {
    if |ds| == 0 {
      MonthsUpToEmpty(rows, month, 12);
    } else {
      var init, last := ds[..|ds| - 1], ds[|ds| - 1];
      assert ds == init + [last];
      MonthsAddUp(rows, init, month);
      MonthsUpToAppend(rows, init, month, last, 12);
    }
  }

  // ---------------------------------------------------------------------------
  // The daily counts add up to the counted rows

  lemma {:induction false} SumCountsAppendRow(rows: seq<Row>, x: Row, ds: seq<string>)
    requires Distinct(ds)
    ensures SumCounts(rows + [x], ds) ==
      SumCounts(rows, ds) + (if x.userId.Some? && x.startDate.Some? && x.startDate.value in ds then 1 else 0)
    decreases |ds|
  {
    if |ds| > 0 {
      var init, last := ds[..|ds| - 1], ds[|ds| - 1];
      assert ds == init + [last];
      SumCountsAppendRow(rows, x, init);
      UserCountAppend(rows, x, last);
    }
  }

  lemma SumCountsAppendDate(rows: seq<Row>, ds: seq<string>, d: string)
    ensures SumCounts(rows, ds + [d]) == SumCounts(rows, ds) + UserCount(rows, d)
  {
    assert (ds + [d])[..|ds|] == ds;
  }

  /** Each counted row is counted under its own date and no other, so the
      daily counts add up to the number of counted rows. */
  lemma {:induction false} DatesAddUp(rows: seq<Row>)
    ensures SumCounts(rows, DistinctDates(rows)) == CountedRows(rows)
    decreases |rows|
  {
    if |rows| > 0 {
      var init, last := rows[..|rows| - 1], rows[|rows| - 1];
      var before := DistinctDates(init);
      assert rows == init + [last];
      DatesAddUp(init);
      SumCountsAppendRow(init, last, before);
      CountedRowsAppend(init, last);
      if last.startDate.Some? && last.startDate.value !in before {
        var d := last.startDate.value;
        SumCountsAppendDate(rows, before, d);
        UserCountAbsent(init, d);
        UserCountAppend(init, last, d);
      }
    }
  }
}
