/**
 The six table-preparing helpers of the dashboard, each a pure function of
 an explicit table:

   OrdersByMonth      create_orders_month   resample by calendar month
   TopCategories      create_top7_category  value_counts().head(7)
   Ratings            create_ratings        value_counts().sort_index()
   PaymentTypes       create_type_payment   value_counts()
   CanceledCategories create_canceled_order status filter, value_counts()
   Rfm                create_rfm_df         groupby(review_score) + recency
 */
module Aggregates {
  import opened Calendar
  import opened Counting
  import opened Orders
  import opened Grouping

  /** How many categories the top-category chart shows. */
  const TopCategoryLimit: nat := 7

  /** The order status the canceled-order chart selects. */
  const CanceledStatus: string := "canceled"

  /** One monthly bin: the month (by `MonthIndex`; `MonthAt` gives its
      year and month), its distinct orders and its payment total. */
  datatype MonthRow = MonthRow(month: int, orders: nat, revenue: int)

  /** One row of the RFM table: frequency is the number of distinct orders,
      monetary the payment total, recency the days from the group's latest
      purchase day to the latest purchase day of the whole table. */
  datatype RfmRow = RfmRow(score: int, frequency: nat, monetary: int, recency: int)

  // ----------------------------------------------------------------------
  // Monthly trend

  /** The earliest purchase month of a non-empty table. */
  function FirstMonth(t: Table): (m: int)
    requires |t| > 0
    ensures forall i :: 0 <= i < |t| ==> m <= MonthOf(t[i].purchased)
    ensures exists i :: 0 <= i < |t| && MonthOf(t[i].purchased) == m
    decreases |t|
  {
    var last := MonthOf(t[|t| - 1].purchased);
    if |t| == 1 then last
    else
      var init := t[..|t| - 1];
      var m := FirstMonth(init);
      assert forall i :: 0 <= i < |init| ==> init[i] == t[i];
      if last < m then last else m
  }

  /** The latest purchase month of a non-empty table. */
  function LastMonth(t: Table): (m: int)
    requires |t| > 0
    ensures forall i :: 0 <= i < |t| ==> MonthOf(t[i].purchased) <= m
    ensures exists i :: 0 <= i < |t| && MonthOf(t[i].purchased) == m
    decreases |t|
  {
    var last := MonthOf(t[|t| - 1].purchased);
    if |t| == 1 then last
    else
      var init := t[..|t| - 1];
      var m := LastMonth(init);
      assert forall i :: 0 <= i < |init| ==> init[i] == t[i];
      if m < last then last else m
  }

  /** The order ids of the rows purchased in month `m`. */
  function MonthIds(t: Table, m: int): set<string> {
    set o | o in t && MonthOf(o.purchased) == m :: o.id
  }

  /** The month indices `lo`, `lo + 1`, ..., `hi`. */
  function MonthRange(lo: int, hi: int): (ks: seq<int>)
    requires lo <= hi + 1
    ensures |ks| == hi - lo + 1
    ensures forall i :: 0 <= i < |ks| ==> ks[i] == lo + i
    decreases hi - lo + 1
  {
    if lo > hi then [] else [lo] + MonthRange(lo + 1, hi)
  }

  /** The monthly bin of month `m`: the distinct orders purchased in that
      month and their payment total, which is 0 for a month without
      purchases. */
  function MonthBin(t: Table, m: int): (b: MonthRow)
    ensures b.month == m
    ensures b.orders == |MonthIds(t, m)|
    ensures MonthIds(t, m) == {} ==> b.revenue == 0
  {
    var g := Group(t, PurchaseMonth, m);
    MonthGroupIds(t, m);
    MonthRow(m, DistinctOrders(g), Revenue(g))
  }

  /** Sum of the revenue column of a trend table. */
  function TrendRevenue(r: seq<MonthRow>): int {
    if |r| == 0 then 0 else r[0].revenue + TrendRevenue(r[1..])
  }

  /** Sum of the order-count column of a trend table. */
  function TrendOrders(r: seq<MonthRow>): int {
    if |r| == 0 then 0 else r[0].orders + TrendOrders(r[1..])
  }

  /** The bins of the `n` consecutive months from month `m` on. */
  function Bins(t: Table, m: int, n: nat): (r: seq<MonthRow>)
    ensures |r| == n
    ensures forall i :: 0 <= i < n ==> r[i].month == m + i
    decreases n
  {
    if n == 0 then [] else [MonthBin(t, m)] + Bins(t, m + 1, n - 1)
  }

  /** The model of `create_orders_month`: `resample('M')` emits one bin for
      every calendar month from the first to the last purchase month, empty
      months included, each with the distinct order count and the payment
      total of that month. */
  function OrdersByMonth(t: Table): (r: seq<MonthRow>)
    ensures |r| == 0 <==> |t| == 0
    ensures forall i :: 0 <= i < |r| - 1 ==> r[i + 1].month == r[i].month + 1
  {
    if |t| == 0 then [] else Bins(t, FirstMonth(t), LastMonth(t) - FirstMonth(t) + 1)
  }

  /** The bins run exactly from the first to the last purchase month. */
  lemma OrdersByMonthSpan(t: Table)
    requires |t| > 0
    ensures var r := OrdersByMonth(t);
      && r[0].month == FirstMonth(t)
      && r[|r| - 1].month == LastMonth(t)
  {
  }

  lemma {:induction false} BinAt(t: Table, m: int, n: nat, i: int)
    requires 0 <= i < n
    ensures Bins(t, m, n)[i] == MonthBin(t, m + i)
    decreases n
  {
    assert Bins(t, m, n) == [MonthBin(t, m)] + Bins(t, m + 1, n - 1);
    if i > 0 {
      BinAt(t, m + 1, n - 1, i - 1);
    }
  }

  /** Each bin counts the distinct orders purchased in its month and adds
      up the payments of that month's rows; a month without purchases has
      revenue 0. */
  lemma OrdersByMonthCounts(t: Table)
    ensures var r := OrdersByMonth(t);
      forall i :: 0 <= i < |r| ==>
        && r[i].orders == |MonthIds(t, r[i].month)|
        && r[i].revenue == Revenue(Group(t, PurchaseMonth, r[i].month))
        && (MonthIds(t, r[i].month) == {} ==> r[i].orders == 0 && r[i].revenue == 0)
  {
    var r := OrdersByMonth(t);
    forall i | 0 <= i < |r|
      ensures r[i].orders == |MonthIds(t, r[i].month)|
      ensures r[i].revenue == Revenue(Group(t, PurchaseMonth, r[i].month))
      ensures MonthIds(t, r[i].month) == {} ==> r[i].orders == 0 && r[i].revenue == 0
    {
      OrdersByMonthBin(t, i);
    }
  }

  lemma OrdersByMonthBin(t: Table, i: int)
    requires 0 <= i < |OrdersByMonth(t)|
    ensures OrdersByMonth(t)[i] == MonthBin(t, OrdersByMonth(t)[i].month)
  {
    var lo := FirstMonth(t);
    var n := LastMonth(t) - lo + 1;
    assert OrdersByMonth(t) == Bins(t, lo, n);
    BinAt(t, lo, n, i);
  }

  /** The orders of a month's group are the orders purchased in that
      month; the group is empty when there are none. */
  lemma MonthGroupIds(t: Table, m: int)
    ensures Ids(Group(t, PurchaseMonth, m)) == MonthIds(t, m)
    ensures MonthIds(t, m) == {} ==> Group(t, PurchaseMonth, m) == []
  {
    var g := Group(t, PurchaseMonth, m);
    assert Ids(g) == MonthIds(t, m) by {
      forall id ensures id in Ids(g) <==> id in MonthIds(t, m) {
        if id in Ids(g) {
          var o :| o in g && o.id == id;
          assert multiset(g)[o] > 0;
        }
        if id in MonthIds(t, m) {
          var o :| o in t && MonthOf(o.purchased) == m && o.id == id;
          assert multiset(t)[o] > 0;
          assert multiset(g)[o] > 0;
        }
      }
    }
    if |g| > 0 {
      assert g[0].id in Ids(g);
    }
  }

  lemma {:induction false} BinsRevenue(t: Table, m: int, n: nat)
    ensures TrendRevenue(Bins(t, m, n)) == GroupRevenues(t, PurchaseMonth, MonthRange(m, m + n - 1))
    decreases n
  {
    var ks := MonthRange(m, m + n - 1);
    if n > 0 {
      BinsRevenue(t, m + 1, n - 1);
      assert ks == [m] + MonthRange(m + 1, m + n - 1);
      assert ks[1..] == MonthRange(m + 1, m + n - 1);
      assert Bins(t, m, n)[1..] == Bins(t, m + 1, n - 1);
    }
  }

  /** The monthly revenues add up to the payment total of the table: no
      row is dropped or counted twice by the binning. This sum is the
      "Total Revenue" metric. */
  lemma OrdersByMonthRevenue(t: Table)
    ensures TrendRevenue(OrdersByMonth(t)) == Revenue(t)
  {
    if |t| > 0 {
      var lo := FirstMonth(t);
      var hi := LastMonth(t);
      var ks := MonthRange(lo, hi);
      var total := TrendRevenue(Bins(t, lo, hi - lo + 1));
      assert TrendRevenue(OrdersByMonth(t)) == total;
      BinsRevenue(t, lo, hi - lo + 1);
      MonthRangeCovers(t, lo, hi);
      GroupRevenuesPartition(t, PurchaseMonth, ks);
      KeyedAll(t);
    }
  }

  /** The order ids purchased in the `n` months from month `m` on. */
  function RangeIds(t: Table, m: int, n: nat): set<string> {
    set o | o in t && m <= MonthOf(o.purchased) < m + n :: o.id
  }

  /** Every order id is purchased within a single month. */
  predicate OneMonthPerOrder(t: Table) {
    forall i, j :: 0 <= i < |t| && 0 <= j < |t| && t[i].id == t[j].id ==>
      MonthOf(t[i].purchased) == MonthOf(t[j].purchased)
  }

  lemma {:induction false} BinsOrders(t: Table, m: int, n: nat)
    ensures TrendOrders(Bins(t, m, n)) >= |RangeIds(t, m, n)|
    ensures OneMonthPerOrder(t) ==> TrendOrders(Bins(t, m, n)) == |RangeIds(t, m, n)|
    decreases n
  {
    if n == 0 {
      assert RangeIds(t, m, n) == {};
    } else {
      BinsOrders(t, m + 1, n - 1);

      assert Bins(t, m, n)[1..] == Bins(t, m + 1, n - 1);
      var a := MonthIds(t, m);
      var b := RangeIds(t, m + 1, n - 1);
      assert RangeIds(t, m, n) == a + b;
      assert |a + b| + |a * b| == |a| + |b|;
      if OneMonthPerOrder(t) {
        assert a * b == {};
      }
    }
  }

  /** When every purchase month lies in the range, the range holds every
      order id. */
  lemma RangeIdsAll(t: Table, lo: int, n: nat)
    requires forall i :: 0 <= i < |t| ==> lo <= MonthOf(t[i].purchased) < lo + n
    ensures RangeIds(t, lo, n) == Ids(t)
  {
    forall id | id in Ids(t) ensures id in RangeIds(t, lo, n) {
      var o :| o in t && o.id == id;
      var i :| 0 <= i < |t| && t[i] == o;
    }
  }

  /** The "Total Orders" figure adds the monthly distinct-order counts: it is
      at least the number of distinct orders, and exactly that number when no
      order's rows fall in two different months. */
  lemma OrdersByMonthOrders(t: Table)
    ensures TrendOrders(OrdersByMonth(t)) >= |Ids(t)|
    ensures OneMonthPerOrder(t) ==> TrendOrders(OrdersByMonth(t)) == |Ids(t)|
  {
    if |t| > 0 {
      var lo := FirstMonth(t);
      var n := LastMonth(t) - lo + 1;
      var total := TrendOrders(Bins(t, lo, n));
      assert TrendOrders(OrdersByMonth(t)) == total;
      BinsOrders(t, lo, n);
      RangeIdsAll(t, lo, n);
      assert |RangeIds(t, lo, n)| == |Ids(t)|;
    } else {
      assert Ids(t) == {};
    }
  }

  lemma MonthRangeCovers(t: Table, lo: int, hi: int)
    requires |t| > 0 && lo == FirstMonth(t) && hi == LastMonth(t)
    ensures NoDuplicates(MonthRange(lo, hi))
    ensures forall i :: 0 <= i < |t| && KeyOf(t[i], PurchaseMonth).Some? ==>
      KeyOf(t[i], PurchaseMonth).value in MonthRange(lo, hi)
  {
    var ks := MonthRange(lo, hi);
    forall i | 0 <= i < |t| ensures MonthOf(t[i].purchased) in ks {
      assert ks[MonthOf(t[i].purchased) - lo] == MonthOf(t[i].purchased);
    }
  }

  /** Each trend row stands for one calendar month: `MonthAt` of its index
      is the (year, month) of exactly the purchases binned there, and every
      purchase lands in some row. */
  lemma OrdersByMonthLabels(t: Table, j: int)
    requires 0 <= j < |t| && t[j].purchased.month.Valid()
    ensures var r := OrdersByMonth(t);
      && (forall i :: 0 <= i < |r| ==>
            (MonthOf(t[j].purchased) == r[i].month <==> MonthAt(r[i].month) == t[j].purchased.month))
      && (exists i :: 0 <= i < |r| && MonthAt(r[i].month) == t[j].purchased.month)
  {
    var r := OrdersByMonth(t);
    var m := t[j].purchased.month;
    MonthAtIndex(m);
    OrdersByMonthSpan(t);
    var i := MonthOf(t[j].purchased) - FirstMonth(t);
    assert r[i].month == FirstMonth(t) + i;
  }

  /** Every row has a purchase month, so no row is dropped from the bins. */
  lemma {:induction false} KeyedAll(t: Table)
    ensures Keyed(t, PurchaseMonth) == t
    decreases |t|
  {
    if |t| > 0 {
      var init := t[..|t| - 1];
      assert t == init + [t[|t| - 1]];
      KeyedAll(init);
    }
  }

  // ----------------------------------------------------------------------
  // Value counts

  /** The model of `create_top7_category`: the seven most frequent product
      categories, most frequent first; rows without a category are not
      counted. */
  function TopCategories(t: Table): (r: seq<Entry<string>>)
    ensures |r| <= TopCategoryLimit
    ensures DistinctKeys(r) && NonIncreasing(r)
    ensures forall i :: 0 <= i < |r| ==> r[i].count > 0
    ensures forall i :: 0 <= i < |r| ==> r[i].count == multiset(CategoryColumn(t))[Some(r[i].key)]
  {
    var col := CategoryColumn(t);
    var xs := Present(col);
    var all := ValueCounts(xs);
    HeadOrdered(all, TopCategoryLimit);
    PresentTallies(col, all);
    Head(all, TopCategoryLimit)
  }

  /** A frequency table of a column's present values counts, for each
      value, the rows holding it. */
  lemma PresentTallies<T(!new)>(col: seq<Option<T>>, all: seq<Entry<T>>)
    requires Tallies(all, Present(col))
    ensures forall i :: 0 <= i < |all| ==> 0 < all[i].count == multiset(col)[Some(all[i].key)]
  {
  }

  /** The top table is the head of the full frequency table of categories. */
  lemma TopCategoriesPrefix(t: Table)
    ensures var all := ValueCounts(Present(CategoryColumn(t)));
      var r := TopCategories(t);
      && |r| == (if |all| < TopCategoryLimit then |all| else TopCategoryLimit)
      && forall i :: 0 <= i < |r| ==> r[i] == all[i]
  {
  }

  /** Top-k dominance: a category left out of the top table occurs in no
      more rows than the last listed one, and is left out only when the
      table is full. */
  lemma TopCategoriesDominate(t: Table, c: string)
    requires Some(c) in CategoryColumn(t)
    ensures var r := TopCategories(t);
      !HasKey(r, c) ==>
        |r| == TopCategoryLimit && multiset(CategoryColumn(t))[Some(c)] <= r[|r| - 1].count
  {
    var xs := Present(CategoryColumn(t));
    var all := ValueCounts(xs);
    PresentHas(CategoryColumn(t), c);
    assert HasKey(all, c);
    var i :| 0 <= i < |all| && all[i].key == c;
    assert all[i].count == multiset(CategoryColumn(t))[Some(c)];
    if !HasKey(Head(all, TopCategoryLimit), c) {
      HeadDominate(all, TopCategoryLimit, i);
    }
  }

  /** Every listed category occurs in the table. */
  lemma TopCategoriesListed(t: Table, c: string)
    ensures HasKey(TopCategories(t), c) ==> Some(c) in CategoryColumn(t)
  {
    var xs := Present(CategoryColumn(t));
    var all := ValueCounts(xs);
    var r := TopCategories(t);
    TopCategoriesPrefix(t);
    if HasKey(r, c) {
      var i :| 0 <= i < |r| && r[i].key == c;
      assert r[i] == all[i];
      assert HasKey(all, c);
      PresentHas(CategoryColumn(t), c);
    }
  }

  /** The model of `create_ratings`: one row per review score present, by
      ascending score, with the number of rows carrying it. */
  function Ratings(t: Table): (r: seq<Entry<int>>)
    ensures Ascending(r)
    ensures forall s :: HasScore(t, s) <==> HasKey(r, s)
  {
    var xs := Present(ScoreColumn(t));
    assert forall s :: s in xs <==> HasScore(t, s) by {
      forall s ensures s in xs <==> HasScore(t, s) {
        PresentHas(ScoreColumn(t), s);
        ScoreColumnHas(t, s);
      }
    }
    ValueCountsByKey(xs)
  }

  /** Each rating row counts the rows carrying its score, and the counts
      add up to the number of rows that have a score. */
  lemma RatingsCounts(t: Table)
    ensures var r := Ratings(t);
      && (forall i :: 0 <= i < |r| ==> r[i].count == multiset(ScoreColumn(t))[Some(r[i].key)])
      && SumCounts(r) == |t| - multiset(ScoreColumn(t))[None]
  {
    var xs := Present(ScoreColumn(t));
    assert Ratings(t) == ValueCountsByKey(xs);
  }

  /** The number of rows that have a review score. */
  function ScoredCount(t: Table): nat {
    if |t| == 0 then 0
    else ScoredCount(t[..|t| - 1]) + (if t[|t| - 1].score.Some? then 1 else 0)
  }

  lemma ScoredCountSnoc(t: Table, x: Order)
    ensures ScoredCount(t + [x]) == ScoredCount(t) + (if x.score.Some? then 1 else 0)
  {
    assert (t + [x])[..|t|] == t;
  }

  /** The ratings table counts every scored row once. */
  lemma RatingsTotal(t: Table)
    ensures SumCounts(Ratings(t)) == ScoredCount(t)
  {
    RatingsCounts(t);
    ScoredColumnCount(t);
  }

  lemma ScoreColumnSnoc(t: Table, x: Order)
    ensures ScoreColumn(t + [x]) == ScoreColumn(t) + [x.score]
  {
    var a := ScoreColumn(t + [x]);
    var b := ScoreColumn(t) + [x.score];
    assert |a| == |b|;
    forall i | 0 <= i < |a| ensures a[i] == b[i] {
      if i < |t| {
        assert (t + [x])[i] == t[i];
      }
    }
  }

  lemma MissingSnoc<T>(c: seq<Option<T>>, y: Option<T>)
    ensures multiset(c + [y])[None] == multiset(c)[None] + (if y.None? then 1 else 0)
  {
    assert multiset(c + [y]) == multiset(c) + multiset{y};
  }

  lemma {:induction false} ScoredColumnCount(t: Table)
    ensures |t| - multiset(ScoreColumn(t))[None] == ScoredCount(t)
    decreases |t|
  {
    if |t| > 0 {
      var init := t[..|t| - 1];
      var x := t[|t| - 1];
      assert t == init + [x];
      ScoredColumnCount(init);
      ScoreColumnSnoc(init, x);
      MissingSnoc(ScoreColumn(init), x.score);
      ScoredCountSnoc(init, x);
    }
  }

  /** The model of `create_type_payment`: one row per payment type present,
      most frequent first. */
  function PaymentTypes(t: Table): (r: seq<Entry<string>>)
    ensures DistinctKeys(r) && NonIncreasing(r)
    ensures forall p :: Some(p) in PaymentTypeColumn(t) <==> HasKey(r, p)
    ensures forall i :: 0 <= i < |r| ==> 0 < r[i].count == multiset(PaymentTypeColumn(t))[Some(r[i].key)]
    ensures SumCounts(r) == |t| - multiset(PaymentTypeColumn(t))[None]
  {
    var xs := Present(PaymentTypeColumn(t));
    assert forall p :: p in xs <==> Some(p) in PaymentTypeColumn(t) by {
      forall p ensures p in xs <==> Some(p) in PaymentTypeColumn(t) {
        assert multiset(xs)[p] == multiset(PaymentTypeColumn(t))[Some(p)];
      }
    }
    ValueCounts(xs)
  }

  /** The rows whose order status is "canceled". */
  function CanceledRows(t: Table): (g: Table)
    ensures forall o {:trigger multiset(g)[o]} :: multiset(g)[o] == if o.status == CanceledStatus then multiset(t)[o] else 0
    decreases |t|
  {
    if |t| == 0 then []
    else
      var init := t[..|t| - 1];
      var x := t[|t| - 1];
      assert t == init + [x];
      if x.status == CanceledStatus then CanceledRows(init) + [x] else CanceledRows(init)
  }

  lemma {:induction false} NoCanceledRows(t: Table)
    requires forall i :: 0 <= i < |t| ==> t[i].status != CanceledStatus
    ensures CanceledRows(t) == []
    decreases |t|
  {
    if |t| > 0 {
      NoCanceledRows(t[..|t| - 1]);
    }
  }

  /** The number of canceled rows whose category is `c`. */
  function CanceledIn(t: Table, c: string): nat {
    multiset(CategoryColumn(CanceledRows(t)))[Some(c)]
  }

  /** The model of `create_canceled_order`: the categories of canceled
      rows, most frequent first. */
  function CanceledCategories(t: Table): (r: seq<Entry<string>>)
    ensures DistinctKeys(r) && NonIncreasing(r)
    ensures forall i :: 0 <= i < |r| ==> 0 < r[i].count == CanceledIn(t, r[i].key)
    ensures forall c :: CanceledIn(t, c) > 0 <==> HasKey(r, c)
    ensures SumCounts(r) == |CanceledRows(t)| - multiset(CategoryColumn(CanceledRows(t)))[None]
    ensures (forall i :: 0 <= i < |t| ==> t[i].status != CanceledStatus) ==> r == []
  {
    var g := CanceledRows(t);
    var xs := Present(CategoryColumn(g));
    assert forall c :: c in xs <==> CanceledIn(t, c) > 0 by {
      forall c ensures c in xs <==> CanceledIn(t, c) > 0 {
        assert multiset(xs)[c] == multiset(CategoryColumn(g))[Some(c)];
      }
    }
    assert (forall i :: 0 <= i < |t| ==> t[i].status != CanceledStatus) ==> g == [] by {
      if forall i :: 0 <= i < |t| ==> t[i].status != CanceledStatus {
        NoCanceledRows(t);
      }
    }
    ValueCounts(xs)
  }

  // ----------------------------------------------------------------------
  // RFM by review score

  /** The order ids of the rows with review score `s`. */
  function ScoreIds(t: Table, s: int): set<string> {
    set o | o in t && o.score == Some(s) :: o.id
  }

  /** The RFM row of score `s`, given the latest purchase day of the whole
      table. */
  function RfmFor(t: Table, s: int, latest: int): (row: RfmRow)
    requires HasScore(t, s) && latest == LastDay(t)
    ensures row.score == s
    ensures row.recency >= 0
  {
    var g := Group(t, ReviewScore, s);
    var j :| 0 <= j < |t| && t[j].score == Some(s);
    GroupMembers(t, ReviewScore, s, t[j]);
    assert |g| > 0;
    var d := LastDay(g);
    RfmGroupFacts(t, s, g, d);
    RfmRow(s, DistinctOrders(g), Revenue(g), latest - d)
  }

  /** The row of score `s` counts the distinct orders with that score, its
      monetary value is the payment total of the rows with that score, and
      its recency is the number of days from the group's latest purchase
      day to `latest`. */
  lemma RfmForMeaning(t: Table, s: int, latest: int)
    requires HasScore(t, s) && latest == LastDay(t)
    ensures var row := RfmFor(t, s, latest);
      && row.frequency == |ScoreIds(t, s)|
      && row.monetary == Revenue(Group(t, ReviewScore, s))
      && (forall j :: 0 <= j < |t| && t[j].score == Some(s) ==> t[j].purchased.day <= latest - row.recency)
      && (exists j :: 0 <= j < |t| && t[j].score == Some(s) && t[j].purchased.day == latest - row.recency)
  {
    var g := Group(t, ReviewScore, s);
    var j :| 0 <= j < |t| && t[j].score == Some(s);
    GroupMembers(t, ReviewScore, s, t[j]);
    RfmGroupFacts(t, s, g, LastDay(g));
  }

  lemma RfmGroupFacts(t: Table, s: int, g: Table, d: int)
    requires g == Group(t, ReviewScore, s) && |g| > 0 && d == LastDay(g) && |t| > 0
    ensures d <= LastDay(t)
    ensures Ids(g) == ScoreIds(t, s)
    ensures forall j :: 0 <= j < |t| && t[j].score == Some(s) ==> t[j].purchased.day <= d
    ensures exists j :: 0 <= j < |t| && t[j].score == Some(s) && t[j].purchased.day == d
  {
    var i :| 0 <= i < |g| && g[i].purchased.day == d;
    GroupMembers(t, ReviewScore, s, g[i]);
    var j :| 0 <= j < |t| && t[j] == g[i];
    forall j | 0 <= j < |t| && t[j].score == Some(s) ensures t[j].purchased.day <= d {
      GroupMembers(t, ReviewScore, s, t[j]);
      var k :| 0 <= k < |g| && g[k] == t[j];
    }
    forall id ensures id in Ids(g) <==> id in ScoreIds(t, s) {
      if id in Ids(g) {
        var o :| o in g && o.id == id;
        GroupMembers(t, ReviewScore, s, o);
      }
      if id in ScoreIds(t, s) {
        var o :| o in t && o.score == Some(s) && o.id == id;
        GroupMembers(t, ReviewScore, s, o);
      }
    }
  }

  /** The RFM rows of the scores `ks`, in order. */
  function RfmRows(t: Table, ks: seq<int>, latest: int): (r: seq<RfmRow>)
    requires forall i :: 0 <= i < |ks| ==> HasScore(t, ks[i])
    requires |t| > 0 && latest == LastDay(t)
    ensures |r| == |ks|
    ensures forall i :: 0 <= i < |ks| ==> r[i].score == ks[i]
    decreases |ks|
  {
    if |ks| == 0 then []
    else
      var tail := ks[1..];
      assert forall i :: 0 <= i < |tail| ==> tail[i] == ks[i + 1];
      [RfmFor(t, ks[0], latest)] + RfmRows(t, tail, latest)
  }

  lemma {:induction false} RfmRowAt(t: Table, ks: seq<int>, latest: int, i: int)
    requires forall i :: 0 <= i < |ks| ==> HasScore(t, ks[i])
    requires |t| > 0 && latest == LastDay(t)
    requires 0 <= i < |ks|
    ensures RfmRows(t, ks, latest)[i] == RfmFor(t, ks[i], latest)
    decreases |ks|
  {
    if i > 0 {
      RfmRowAt(t, ks[1..], latest, i - 1);
    }
  }

  lemma RatingKey(t: Table, s: int)
    ensures HasScore(t, s) <==> s in KeysOf(Ratings(t))
  {
    KeysOfHas(Ratings(t), s);
  }

  /** The scores `create_rfm_df` groups by: those present, ascending. */
  function RfmScoreList(t: Table): (ks: seq<int>)
    ensures forall i, j :: 0 <= i < j < |ks| ==> ks[i] < ks[j]
    ensures forall i :: 0 <= i < |ks| ==> HasScore(t, ks[i])
  {
    var ks := KeysOf(Ratings(t));
    assert forall i :: 0 <= i < |ks| ==> HasScore(t, ks[i]) by {
      forall i | 0 <= i < |ks| ensures HasScore(t, ks[i]) {
        RatingKey(t, ks[i]);
      }
    }
    ks
  }

  /** The model of `create_rfm_df`: one row per review score present, by
      ascending score (`groupby` sorts its keys), with the distinct order
      count, the payment total and the recency of the group. */
  function Rfm(t: Table): (r: seq<RfmRow>)
    ensures forall i, j :: 0 <= i < j < |r| ==> r[i].score < r[j].score
  {
    var ks := RfmScoreList(t);
    if |ks| == 0 then [] else RfmRows(t, ks, LastDay(t))
  }

  /** Exactly the scores present in the table get an RFM row. */
  lemma RfmScores(t: Table, s: int)
    ensures HasScore(t, s) <==> exists i :: 0 <= i < |Rfm(t)| && Rfm(t)[i].score == s
  {
    var ks := RfmScoreList(t);
    var r := Rfm(t);
    RfmShape(t);
    RatingKey(t, s);
    assert HasScore(t, s) <==> s in ks;
    if s in ks {
      var i :| 0 <= i < |ks| && ks[i] == s;
      assert r[i].score == s;
    }
  }

  lemma RfmShape(t: Table)
    ensures |Rfm(t)| == |RfmScoreList(t)|
    ensures forall i :: 0 <= i < |Rfm(t)| ==> Rfm(t)[i].score == RfmScoreList(t)[i]
  {
  }

  /** Each RFM row describes its score group: the number of distinct
      orders with that score, the payment total of its rows, and how many
      days before the table's latest purchase day the group's latest
      purchase fell. */
  lemma RfmRowMeaning(t: Table, i: int)
    requires 0 <= i < |Rfm(t)|
    ensures |t| > 0
    ensures Rfm(t)[i].frequency == |ScoreIds(t, Rfm(t)[i].score)|
    ensures Rfm(t)[i].monetary == Revenue(Group(t, ReviewScore, Rfm(t)[i].score))
    ensures Rfm(t)[i].recency >= 0
    ensures exists j ::
      0 <= j < |t| && t[j].score == Some(Rfm(t)[i].score) && t[j].purchased.day == LastDay(t) - Rfm(t)[i].recency
    ensures Rfm(t)[i].recency == 0 <==>
      exists j :: 0 <= j < |t| && t[j].score == Some(Rfm(t)[i].score) && t[j].purchased.day == LastDay(t)
    ensures forall j :: 0 <= j < |t| && t[j].score == Some(Rfm(t)[i].score) ==>
      t[j].purchased.day <= LastDay(t) - Rfm(t)[i].recency
  {
    var ks := RfmScoreList(t);
    RfmRowAt(t, ks, LastDay(t), i);
    RfmForMeaning(t, ks[i], LastDay(t));
  }

  /** The total of a column of monetary values. */
  function Monetary(r: seq<RfmRow>): int {
    if |r| == 0 then 0 else r[0].monetary + Monetary(r[1..])
  }

  lemma {:induction false} RfmRowsMonetary(t: Table, ks: seq<int>, latest: int)
    requires forall i :: 0 <= i < |ks| ==> HasScore(t, ks[i])
    requires |t| > 0 && latest == LastDay(t)
    ensures Monetary(RfmRows(t, ks, latest)) == GroupRevenues(t, ReviewScore, ks)
    decreases |ks|
  {
    if |ks| > 0 {
      RfmRowsMonetary(t, ks[1..], latest);
    }
  }

  /** The monetary column adds up to the payments of every row that has a
      review score: the score groups partition the scored rows. */
  lemma RfmMonetaryTotal(t: Table)
    ensures Monetary(Rfm(t)) == Revenue(Keyed(t, ReviewScore))
  {
    var ks := RfmScoreList(t);
    forall i | 0 <= i < |t| && KeyOf(t[i], ReviewScore).Some?
      ensures KeyOf(t[i], ReviewScore).value in ks
    {
      RatingKey(t, t[i].score.value);
    }
    if |ks| == 0 {
      GroupRevenuesPartition(t, ReviewScore, ks);
    } else {
      RfmRowsMonetary(t, ks, LastDay(t));
      GroupRevenuesPartition(t, ReviewScore, ks);
    }
  }

  /** A score is in the score column exactly when some row carries it. */
  lemma ScoreColumnHas(t: Table, s: int)
    ensures Some(s) in ScoreColumn(t) <==> HasScore(t, s)
  {
    var col := ScoreColumn(t);
    if Some(s) in col {
      var j :| 0 <= j < |col| && col[j] == Some(s);
      assert t[j].score == Some(s);
    }
    if HasScore(t, s) {
      var j :| 0 <= j < |t| && t[j].score == Some(s);
      assert col[j] == Some(s);
    }
  }
}
