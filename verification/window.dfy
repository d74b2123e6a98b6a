/**
 The sidebar's date filter. The dashboard keeps the rows whose purchase
 timestamp is at least the start date and at most the end date, where each
 date is compared as a timestamp at 00:00:00 of that day
 (dashboard/dashboard.py:86). A purchase made on the end date after
 midnight is therefore dropped; `FilterByDay` is the whole-day window the
 date pickers suggest, and `EndDayAfterMidnightDropped` shows the
 difference.
 */
module Window {
  import opened Calendar
  import opened Orders

  /** The filter's condition: `start 00:00 <= ts <= end 00:00`. A timestamp
      in the window falls on a day from `start` to `end`, and on day `end`
      only at 00:00:00. */
  predicate InWindow(ts: Timestamp, start: int, end: int): (b: bool)
    ensures b ==> start <= ts.day <= end
    ensures b && ts.day == end ==> ts.second <= 0
  {
    NotAfter(Midnight(start), ts) && NotAfter(ts, Midnight(end))
  }

  /** The model of the filter at dashboard/dashboard.py:86: the rows inside
      the window, in row order. */
  function FilterByDate(t: Table, start: int, end: int): (r: Table)
    ensures forall o {:trigger multiset(r)[o]} :: multiset(r)[o] == if InWindow(o.purchased, start, end) then multiset(t)[o] else 0
    ensures forall i :: 0 <= i < |r| ==> InWindow(r[i].purchased, start, end)
    decreases |t|
  {
    if |t| == 0 then []
    else
      var init := t[..|t| - 1];
      var x := t[|t| - 1];
      assert t == init + [x];
      var r := FilterByDate(init, start, end);
      if InWindow(x.purchased, start, end) then r + [x] else r
  }

  lemma FilterByDateSnoc(t: Table, x: Order, start: int, end: int)
    ensures FilterByDate(t + [x], start, end)
         == if InWindow(x.purchased, start, end) then FilterByDate(t, start, end) + [x]
            else FilterByDate(t, start, end)
  {
    assert (t + [x])[..|t|] == t;
  }

  /** In terms of days: a valid timestamp is in the window exactly when its
      day is from `start` to `end`, and on day `end` only at 00:00:00. */
  lemma InWindowDays(ts: Timestamp, start: int, end: int)
    requires ts.Valid()
    ensures InWindow(ts, start, end) <==>
      start <= ts.day && (ts.day < end || (ts.day == end && ts.second == 0))
  {
  }

  /** A start date after the end date selects nothing. */
  lemma FilterReversed(t: Table, start: int, end: int)
    requires end < start
    ensures FilterByDate(t, start, end) == []
  {
  }

  /** A timestamp is in both windows exactly when it is in their
      intersection. */
  lemma InWindowMeet(ts: Timestamp, s1: int, e1: int, s2: int, e2: int)
    ensures InWindow(ts, s1, e1) && InWindow(ts, s2, e2)
        <==> InWindow(ts, if s1 < s2 then s2 else s1, if e1 < e2 then e1 else e2)
  {
  }

  /** Filtering twice is filtering by the intersection of the two windows. */
  lemma {:induction false} FilterCompose(t: Table, s1: int, e1: int, s2: int, e2: int)
    ensures FilterByDate(FilterByDate(t, s1, e1), s2, e2)
         == FilterByDate(t, if s1 < s2 then s2 else s1, if e1 < e2 then e1 else e2)
    decreases |t|
  {
    var s := if s1 < s2 then s2 else s1;
    var e := if e1 < e2 then e1 else e2;
    if |t| > 0 {
      var init := t[..|t| - 1];
      var x := t[|t| - 1];
      assert t == init + [x];
      FilterCompose(init, s1, e1, s2, e2);
      FilterByDateSnoc(init, x, s1, e1);
      FilterByDateSnoc(init, x, s, e);
      InWindowMeet(x.purchased, s1, e1, s2, e2);
      if InWindow(x.purchased, s1, e1) {
        FilterByDateSnoc(FilterByDate(init, s1, e1), x, s2, e2);
      }
    }
  }

  /** The corrected window: every purchase made on a day from `start` to
      `end`, whatever its time of day. */
  function FilterByDay(t: Table, start: int, end: int): (r: Table)
    ensures forall o {:trigger multiset(r)[o]} :: multiset(r)[o] == if start <= o.purchased.day <= end then multiset(t)[o] else 0
    ensures forall i :: 0 <= i < |r| ==> start <= r[i].purchased.day <= end
    decreases |t|
  {
    if |t| == 0 then []
    else
      var init := t[..|t| - 1];
      var x := t[|t| - 1];
      assert t == init + [x];
      var r := FilterByDay(init, start, end);
      if start <= x.purchased.day <= end then r + [x] else r
  }

  /** A purchase on the end date after midnight is in the table and in the
      whole-day window, but the dashboard's filter drops it. */
  lemma EndDayAfterMidnightDropped(t: Table, start: int, end: int, o: Order)
    requires o in t && o.purchased.Valid()
    requires start <= end && o.purchased.day == end && o.purchased.second > 0
    ensures o !in FilterByDate(t, start, end)
    ensures o in FilterByDay(t, start, end)
  {
    assert multiset(FilterByDate(t, start, end))[o] == 0;
    assert multiset(FilterByDay(t, start, end))[o] == multiset(t)[o] > 0;
  }

  /** The two windows agree whenever no purchase falls on the end date after
      midnight. */
  lemma {:induction false} FilterAgree(t: Table, start: int, end: int)
    requires WellFormed(t)
    requires forall i :: 0 <= i < |t| && t[i].purchased.day == end ==> t[i].purchased.second == 0
    ensures FilterByDate(t, start, end) == FilterByDay(t, start, end)
    decreases |t|
  {
    if |t| > 0 {
      var init := t[..|t| - 1];
      var x := t[|t| - 1];
      assert t == init + [x];
      assert (init + [x])[..|init|] == init;
      FilterAgree(init, start, end);
      InWindowDays(x.purchased, start, end);
    }
  }
}
