/**
 The orders table: one row per (order, payment, item, review) of the merged
 Olist extract, already typed (the CSV parsing is not part of this model).

 Columns that pandas may read as NaN — payment type, product category and
 review score — are `Option`s, because `value_counts` and `groupby` drop
 missing keys. A missing payment value is stored as 0: pandas' `sum` skips
 NaN, which adds the same amount.
 */
module Orders {
  import opened Calendar

  datatype Option<T> = None | Some(value: T)

  datatype Order = Order(
    id: string,
    purchased: Timestamp,
    status: string,
    paymentType: Option<string>,
    payment: int,  // payment value in cents
    category: Option<string>,
    score: Option<int>)

  type Table = seq<Order>

  /** Every purchase timestamp names a second within its day and carries
      the calendar month of its day (`Timestamp.Valid`). */
  predicate WellFormed(t: Table) {
    forall i :: 0 <= i < |t| ==> t[i].purchased.Valid()
  }

  /** `Series.dropna()`: the present values of a column, in row order. */
  function Present<T(==,!new)>(xs: seq<Option<T>>): (r: seq<T>)
    ensures forall v :: multiset(r)[v] == multiset(xs)[Some(v)]
    ensures |r| + multiset(xs)[None] == |xs|
    decreases |xs|
  {
    if |xs| == 0 then []
    else
      var init := xs[..|xs| - 1];
      var x := xs[|xs| - 1];
      assert xs == init + [x];
      match x
      case None => Present(init)
      case Some(v) => Present(init) + [v]
  }

  /** A value is present in a column exactly when some row holds it. */
  lemma PresentHas<T(!new)>(xs: seq<Option<T>>, v: T)
    ensures v in Present(xs) <==> Some(v) in xs
  {
    assert multiset(Present(xs))[v] == multiset(xs)[Some(v)];
  }

  /** The review-score column. */
  function ScoreColumn(t: Table): (c: seq<Option<int>>)
    ensures |c| == |t|
    ensures forall i :: 0 <= i < |t| ==> c[i] == t[i].score
  {
    if |t| == 0 then [] else [t[0].score] + ScoreColumn(t[1..])
  }

  /** The product-category column. */
  function CategoryColumn(t: Table): (c: seq<Option<string>>)
    ensures |c| == |t|
    ensures forall i :: 0 <= i < |t| ==> c[i] == t[i].category
  {
    if |t| == 0 then [] else [t[0].category] + CategoryColumn(t[1..])
  }

  /** The payment-type column. */
  function PaymentTypeColumn(t: Table): (c: seq<Option<string>>)
    ensures |c| == |t|
    ensures forall i :: 0 <= i < |t| ==> c[i] == t[i].paymentType
  {
    if |t| == 0 then [] else [t[0].paymentType] + PaymentTypeColumn(t[1..])
  }

  /** Some row of `t` has review score `s`. */
  predicate HasScore(t: Table, s: int) {
    exists j :: 0 <= j < |t| && t[j].score == Some(s)
  }

  /** The total payment value of a table (`payment_value.sum()`); it is
      never negative when no payment is. */
  function Revenue(t: Table): (r: int)
    ensures (forall i :: 0 <= i < |t| ==> t[i].payment >= 0) ==> r >= 0
    decreases |t|
  {
    if |t| == 0 then 0
    else
      var init := t[..|t| - 1];
      assert forall i :: 0 <= i < |init| ==> init[i] == t[i];
      Revenue(init) + t[|t| - 1].payment
  }

  lemma RevenueSnoc(t: Table, x: Order)
    ensures Revenue(t + [x]) == Revenue(t) + x.payment
  {
    assert (t + [x])[..|t|] == t;
  }

  /** The total of two tables put together is the sum of their totals. */
  lemma {:induction false} RevenueAppend(a: Table, b: Table)
    ensures Revenue(a + b) == Revenue(a) + Revenue(b)
    decreases |b|
  {
    if |b| > 0 {
      var init := b[..|b| - 1];
      var x := b[|b| - 1];
      assert b == init + [x];
      assert a + b == (a + init) + [x];
      RevenueAppend(a, init);
      RevenueSnoc(a + init, x);
      RevenueSnoc(init, x);
    } else {
      assert a + b == a;
    }
  }

  /** The distinct order ids of a table. */
  function Ids(t: Table): set<string> {
    set o | o in t :: o.id
  }

  /** `order_id.nunique()`. */
  function DistinctOrders(t: Table): nat {
    |Ids(t)|
  }

  /** A table has at most as many distinct orders as rows, and at least one
      when it has a row. */
  lemma {:induction false} DistinctOrdersBounds(t: Table)
    ensures DistinctOrders(t) <= |t|
    ensures |t| > 0 ==> DistinctOrders(t) >= 1
    decreases |t|
  {
    if |t| > 0 {
      var init := t[..|t| - 1];
      assert t == init + [t[|t| - 1]];
      assert Ids(t) == Ids(init) + {t[|t| - 1].id};
      DistinctOrdersBounds(init);
    }
  }

  /** The latest purchase day of a non-empty table (`dt.date.max()`). */
  function LastDay(t: Table): (d: int)
    requires |t| > 0
    ensures forall i :: 0 <= i < |t| ==> t[i].purchased.day <= d
    ensures exists i :: 0 <= i < |t| && t[i].purchased.day == d
    decreases |t|
  {
    var last := t[|t| - 1].purchased.day;
    if |t| == 1 then last
    else
      var init := t[..|t| - 1];
      var d := LastDay(init);
      assert forall i :: 0 <= i < |init| ==> init[i] == t[i];
      if d < last then last else d
  }
}
