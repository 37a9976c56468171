/** `groupby('Start Date')['User ID'].count()`: how many non-null User IDs
    each start date carries. */
module Grouping {
  import opened Outcomes
  import opened Records
  import opened Seqs

  /** The row is counted for date `d`: it is dated `d` and has a User ID. */
  predicate CountsFor(r: Row, d: string) {
    r.startDate == Some(d) && r.userId.Some?
  }

  /** The group count of date `d`. */
  function UserCount(rows: seq<Row>, d: string): (n: nat)
    ensures n <= |rows|
  {
    if |rows| == 0 then 0
    else UserCount(rows[..|rows| - 1], d) + (if CountsFor(rows[|rows| - 1], d) then 1 else 0)
  }

  /** The group keys: every non-null start date (null keys form no group). */
  function DatesOf(rows: seq<Row>): set<string> {
    set r | r in rows && r.startDate.Some? :: r.startDate.value
  }

  /** The rows `count()` counts at all: dated, with a User ID. */
  function CountedRows(rows: seq<Row>): (n: nat)
    ensures n <= |rows|
  {
    if |rows| == 0 then 0
    else CountedRows(rows[..|rows| - 1]) + (if rows[|rows| - 1].startDate.Some? && rows[|rows| - 1].userId.Some? then 1 else 0)
  }

  lemma UserCountAppend(rows: seq<Row>, x: Row, d: string)
    ensures UserCount(rows + [x], d) == UserCount(rows, d) + (if CountsFor(x, d) then 1 else 0)
  {
    assert (rows + [x])[..|rows|] == rows;
  }

  lemma CountedRowsAppend(rows: seq<Row>, x: Row)
    ensures CountedRows(rows + [x]) == CountedRows(rows) + (if x.startDate.Some? && x.userId.Some? then 1 else 0)
  {
    assert (rows + [x])[..|rows|] == rows;
  }

  /** A date no row carries has count zero. */
  lemma {:induction false} UserCountAbsent(rows: seq<Row>, d: string)
    requires d !in DatesOf(rows)
    ensures UserCount(rows, d) == 0
    decreases |rows|
  {
    if |rows| > 0 {
      var init := rows[..|rows| - 1];
      assert forall r :: r in init ==> r in rows;
      UserCountAbsent(init, d);
    }
  }

  /** A filter that keeps every row dated `d` leaves `d`'s count unchanged. */
  lemma {:induction false} UserCountFilter(rows: seq<Row>, keep: Row -> bool, d: string)
    requires forall r :: r in rows && r.startDate == Some(d) ==> keep(r)
    ensures UserCount(Filter(rows, keep), d) == UserCount(rows, d)
    decreases |rows|
  {
    if |rows| > 0 {
      var init, last := rows[..|rows| - 1], rows[|rows| - 1];
      assert forall r :: r in init ==> r in rows;
      assert rows == init + [last];
      UserCountFilter(init, keep, d);
      if keep(last) {
        assert Filter(rows, keep) == Filter(init, keep) + [last];
        UserCountAppend(Filter(init, keep), last, d);
      } else {
        assert Filter(rows, keep) == Filter(init, keep);
      }
    }
  }

  /** Filtering never raises a date's count. */
  lemma {:induction false} UserCountFilterBound(rows: seq<Row>, keep: Row -> bool, d: string)
    ensures UserCount(Filter(rows, keep), d) <= UserCount(rows, d)
    decreases |rows|
  {
    if |rows| > 0 {
      var init, last := rows[..|rows| - 1], rows[|rows| - 1];
      UserCountFilterBound(init, keep, d);
      if keep(last) {
        UserCountAppend(Filter(init, keep), last, d);
      } else {
        assert Filter(rows, keep) == Filter(init, keep);
      }
    }
  }

  /** The group-count table, built in one pass as `groupby().count()` does:
      one key per non-null date, valued at that date's User ID count. */
  method CountByDate(rows: seq<Row>) returns (counts: map<string, nat>)
    ensures counts.Keys == DatesOf(rows)
    ensures forall d :: d in counts ==> counts[d] == UserCount(rows, d)
  {
    counts := map[];
    var i := 0;
    while i < |rows|
      invariant 0 <= i <= |rows|
      invariant counts.Keys == DatesOf(rows[..i])
      invariant forall d :: d in counts ==> counts[d] == UserCount(rows[..i], d)
    {
      var r := rows[i];
      assert rows[..i + 1] == rows[..i] + [r];
      forall d {
        UserCountAppend(rows[..i], r, d);
      }
      if r.startDate.Some? {
        var d := r.startDate.value;
        if d !in counts {
          UserCountAbsent(rows[..i], d);
        }
        var before := if d in counts then counts[d] else 0;
        counts := counts[d := before + (if r.userId.Some? then 1 else 0)];
      }
      i := i + 1;
    }
    assert rows[..|rows|] == rows;
  }
}
