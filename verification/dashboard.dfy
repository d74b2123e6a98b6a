/**
 The dashboard's pipeline: filter the table by the chosen dates, build the
 six tables, and derive the two summary figures ("Total Orders" and "Total
 Revenue") from the monthly trend (dashboard/dashboard.py:86-109).

 `Render` is the pipeline as written: only the monthly trend is built from
 the filtered rows; the other five helpers read the whole loaded table.
 `RenderIntended` is the pipeline with the window applied to every chart
 and with whole-day dates.
 */
module Dashboard {
  import opened Calendar
  import opened Counting
  import opened Orders
  import opened Aggregates
  import opened Window

  /** Everything the dashboard shows that this model computes. */
  datatype Report = Report(
    trend: seq<MonthRow>,
    topCategories: seq<Entry<string>>,
    ratings: seq<Entry<int>>,
    paymentTypes: seq<Entry<string>>,
    canceled: seq<Entry<string>>,
    rfm: seq<RfmRow>,
    totalOrders: int,
    totalRevenue: int)

  /** The report built from the monthly trend of `window` and the other
      tables of `whole`. */
  function Build(window: Table, whole: Table): (r: Report)
    ensures r.totalRevenue == Revenue(window)
    ensures r.totalOrders >= |Ids(window)|
    ensures OneMonthPerOrder(window) ==> r.totalOrders == |Ids(window)|
    ensures SumCounts(r.ratings) == ScoredCount(whole)
  {
    var trend := OrdersByMonth(window);
    OrdersByMonthRevenue(window);
    OrdersByMonthOrders(window);
    RatingsTotal(whole);
    Report(trend, TopCategories(whole), Ratings(whole), PaymentTypes(whole),
           CanceledCategories(whole), Rfm(whole), TrendOrders(trend), TrendRevenue(trend))
  }

  /** The pipeline as written: the totals describe the filtered rows, the
      ratings chart every loaded row. */
  function Render(data: Table, start: int, end: int): (r: Report)
    ensures r.totalRevenue == Revenue(FilterByDate(data, start, end))
    ensures r.totalOrders >= |Ids(FilterByDate(data, start, end))|
    ensures end < start ==> r.trend == [] && r.totalOrders == 0 && r.totalRevenue == 0
    ensures SumCounts(r.ratings) == ScoredCount(data)
  {
    var window := FilterByDate(data, start, end);
    assert end < start ==> window == [] by {
      if end < start {
        FilterReversed(data, start, end);
      }
    }
    Build(window, data)
  }

  /** The pipeline as intended: every table describes the purchases made on
      the days from `start` to `end`. */
  function RenderIntended(data: Table, start: int, end: int): (r: Report)
    ensures r.totalRevenue == Revenue(FilterByDay(data, start, end))
    ensures r.totalOrders >= |Ids(FilterByDay(data, start, end))|
    ensures end < start ==> r.trend == [] && r.totalOrders == 0 && r.totalRevenue == 0
    ensures SumCounts(r.ratings) == ScoredCount(FilterByDay(data, start, end))
  {
    var window := FilterByDay(data, start, end);
    assert end < start ==> window == [] by {
      if |window| > 0 {
        assert start <= window[0].purchased.day <= end;
      }
    }
    Build(window, window)
  }

  /** As written, only the monthly trend and the two totals depend on the
      chosen dates: the five other tables are the same for every window. */
  lemma RenderIgnoresWindow(data: Table, s1: int, e1: int, s2: int, e2: int)
    ensures var a, b := Render(data, s1, e1), Render(data, s2, e2);
      && a.topCategories == b.topCategories
      && a.ratings == b.ratings
      && a.paymentTypes == b.paymentTypes
      && a.canceled == b.canceled
      && a.rfm == b.rfm
  {
  }

  /** No payment is negative. */
  predicate NonNegativePayments(t: Table) {
    forall i :: 0 <= i < |t| ==> t[i].payment >= 0
  }

  lemma {:induction false} FilterRevenueBound(t: Table, start: int, end: int)
    requires NonNegativePayments(t)
    ensures Revenue(FilterByDate(t, start, end)) <= Revenue(t)
    decreases |t|
  {
    if |t| > 0 {
      var init := t[..|t| - 1];
      var x := t[|t| - 1];
      assert t == init + [x];
      FilterRevenueBound(init, start, end);
      FilterByDateSnoc(init, x, start, end);
      var f := FilterByDate(init, start, end);
      if InWindow(x.purchased, start, end) {
        assert (f + [x])[..|f|] == f;
      }
    }
  }

  /** Narrowing the chosen dates never raises the "Total Revenue" figure,
      as long as no payment is negative. */
  lemma TotalRevenueNarrowing(data: Table, s1: int, e1: int, s2: int, e2: int)
    requires NonNegativePayments(data)
    requires s1 <= s2 && e2 <= e1
    ensures Render(data, s2, e2).totalRevenue <= Render(data, s1, e1).totalRevenue
  {
    var wide := FilterByDate(data, s1, e1);
    FilterCompose(data, s1, e1, s2, e2);
    assert NonNegativePayments(wide) by {
      forall i | 0 <= i < |wide| ensures wide[i].payment >= 0 {
        assert multiset(wide)[wide[i]] > 0;
        assert wide[i] in data;
      }
    }
    FilterRevenueBound(wide, s2, e2);
  }

  /** Filtering never adds scored rows. */
  lemma {:induction false} FilterScored(t: Table, start: int, end: int)
    ensures ScoredCount(FilterByDate(t, start, end)) <= ScoredCount(t)
    decreases |t|
  {
    if |t| > 0 {
      var init := t[..|t| - 1];
      var x := t[|t| - 1];
      assert t == init + [x];
      FilterScored(init, start, end);
      FilterByDateSnoc(init, x, start, end);
      ScoredCountSnoc(init, x);
      ScoredCountSnoc(FilterByDate(init, start, end), x);
    }
  }

  /** Filtering drops a scored row that lies outside the window. */
  lemma {:induction false} FilterDropsScored(t: Table, start: int, end: int, j: int)
    requires 0 <= j < |t| && t[j].score.Some? && !InWindow(t[j].purchased, start, end)
    ensures ScoredCount(FilterByDate(t, start, end)) < ScoredCount(t)
    decreases |t|
  {
    var init := t[..|t| - 1];
    var x := t[|t| - 1];
    assert t == init + [x];
    FilterByDateSnoc(init, x, start, end);
    ScoredCountSnoc(init, x);
    ScoredCountSnoc(FilterByDate(init, start, end), x);
    if j < |init| {
      assert init[j] == t[j];
      FilterDropsScored(init, start, end, j);
    } else {
      FilterScored(init, start, end);
    }
  }

  /** As written, a scored purchase outside the chosen dates still shows in
      the ratings chart: the chart counts more ratings than the filtered
      rows hold. */
  lemma RatingsIgnoreWindow(data: Table, start: int, end: int)
    requires exists j :: 0 <= j < |data| && data[j].score.Some? && !InWindow(data[j].purchased, start, end)
    ensures SumCounts(Render(data, start, end).ratings) > ScoredCount(FilterByDate(data, start, end))
  {
    var j :| 0 <= j < |data| && data[j].score.Some? && !InWindow(data[j].purchased, start, end);
    FilterDropsScored(data, start, end, j);
  }

  /** When the window holds every row (no purchase outside the chosen days,
      none on the end day after midnight), both pipelines show the same
      report. */
  lemma RenderAgrees(data: Table, start: int, end: int)
    requires WellFormed(data)
    requires forall i :: 0 <= i < |data| ==> start <= data[i].purchased.day <= end
    requires forall i :: 0 <= i < |data| && data[i].purchased.day == end ==> data[i].purchased.second == 0
    ensures Render(data, start, end) == RenderIntended(data, start, end)
  {
    FilterAgree(data, start, end);
    FilterByDayAll(data, start, end);
  }

  lemma {:induction false} FilterByDayAll(t: Table, start: int, end: int)
    requires forall i :: 0 <= i < |t| ==> start <= t[i].purchased.day <= end
    ensures FilterByDay(t, start, end) == t
    decreases |t|
  {
    if |t| > 0 {
      var init := t[..|t| - 1];
      FilterByDayAll(init, start, end);
    }
  }
}
