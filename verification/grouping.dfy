/**
 Grouping rows by a key: by review score (`groupby("review_score")`) or by
 calendar month of purchase (`resample("M")`). Rows whose key is missing
 fall in no group, as `groupby` drops NaN keys.
 */
module Grouping {
  import opened Calendar
  import opened Orders

  datatype Column = ReviewScore | PurchaseMonth

  /** The grouping key of a row, if it has one. */
  function KeyOf(o: Order, col: Column): Option<int> {
    match col
    case ReviewScore => o.score
    case PurchaseMonth => Some(MonthOf(o.purchased))
  }

  /** The row has key `k`. */
  predicate InGroup(o: Order, col: Column, k: int) {
    KeyOf(o, col) == Some(k)
  }

  /** The rows of `t` with key `k`, in row order. */
  function Group(t: Table, col: Column, k: int): (g: Table)
    ensures forall o {:trigger multiset(g)[o]} :: multiset(g)[o] == if InGroup(o, col, k) then multiset(t)[o] else 0
    decreases |t|
  {
    if |t| == 0 then []
    else
      var init := t[..|t| - 1];
      var x := t[|t| - 1];
      assert t == init + [x];
      if InGroup(x, col, k) then Group(init, col, k) + [x] else Group(init, col, k)
  }

  /** A row is in a group exactly when it is a row of the table with the
      group's key. */
  lemma GroupMembers(t: Table, col: Column, k: int, o: Order)
    ensures o in Group(t, col, k) <==> o in t && InGroup(o, col, k)
  {
    var g := Group(t, col, k);
    assert multiset(g)[o] == if InGroup(o, col, k) then multiset(t)[o] else 0;
  }

  /** The rows of `t` that have a key, in row order. */
  function Keyed(t: Table, col: Column): (g: Table)
    ensures forall o {:trigger multiset(g)[o]} :: multiset(g)[o] == if KeyOf(o, col).Some? then multiset(t)[o] else 0
    decreases |t|
  {
    if |t| == 0 then []
    else
      var init := t[..|t| - 1];
      var x := t[|t| - 1];
      assert t == init + [x];
      if KeyOf(x, col).Some? then Keyed(init, col) + [x] else Keyed(init, col)
  }

  /** No key is listed twice. */
  predicate NoDuplicates(ks: seq<int>) {
    forall i, j :: 0 <= i < j < |ks| ==> ks[i] != ks[j]
  }

  /** The row's key is one of `ks`. */
  predicate KeyListed(o: Order, col: Column, ks: seq<int>) {
    KeyOf(o, col).Some? && KeyOf(o, col).value in ks
  }

  /** The revenues of the groups keyed by `ks`, added up. */
  function GroupRevenues(t: Table, col: Column, ks: seq<int>): int
    decreases |ks|
  {
    if |ks| == 0 then 0 else Revenue(Group(t, col, ks[0])) + GroupRevenues(t, col, ks[1..])
  }

  lemma GroupSnoc(t: Table, x: Order, col: Column, k: int)
    ensures Group(t + [x], col, k) == if InGroup(x, col, k) then Group(t, col, k) + [x] else Group(t, col, k)
  {
    assert (t + [x])[..|t|] == t;
  }

  lemma KeyedSnoc(t: Table, x: Order, col: Column)
    ensures Keyed(t + [x], col) == if KeyOf(x, col).Some? then Keyed(t, col) + [x] else Keyed(t, col)
  {
    assert (t + [x])[..|t|] == t;
  }

  /** One more row adds its payment to exactly the group it belongs to. */
  lemma {:induction false} GroupRevenuesSnoc(t: Table, x: Order, col: Column, ks: seq<int>)
    requires NoDuplicates(ks)
    ensures GroupRevenues(t + [x], col, ks)
         == GroupRevenues(t, col, ks) + (if KeyListed(x, col, ks) then x.payment else 0)
    decreases |ks|
  {
    if |ks| > 0 {
      GroupSnoc(t, x, col, ks[0]);
      if InGroup(x, col, ks[0]) {
        RevenueSnoc(Group(t, col, ks[0]), x);
      }
      assert NoDuplicates(ks[1..]) by {
        forall i, j | 0 <= i < j < |ks[1..]| ensures ks[1..][i] != ks[1..][j] {
          assert ks[1..][i] == ks[i + 1] && ks[1..][j] == ks[j + 1];
        }
      }
      GroupRevenuesSnoc(t, x, col, ks[1..]);
      assert ks == [ks[0]] + ks[1..];
      if KeyOf(x, col).Some? && KeyOf(x, col).value == ks[0] {
        assert KeyOf(x, col).value !in ks[1..] by {
          forall i | 0 <= i < |ks[1..]| ensures ks[1..][i] != ks[0] {
            assert ks[1..][i] == ks[i + 1];
          }
        }
      }
    }
  }

  /** The groups partition the keyed rows: when every keyed row's key is
      listed once, the group revenues add up to the revenue of all keyed
      rows. */
  lemma {:induction false} GroupRevenuesPartition(t: Table, col: Column, ks: seq<int>)
    requires NoDuplicates(ks)
    requires forall i :: 0 <= i < |t| && KeyOf(t[i], col).Some? ==> KeyOf(t[i], col).value in ks
    ensures GroupRevenues(t, col, ks) == Revenue(Keyed(t, col))
    decreases |t|
  {
    if |t| == 0 {
      GroupRevenuesEmpty(col, ks);
    } else {
      var init := t[..|t| - 1];
      var x := t[|t| - 1];
      assert t == init + [x];
      GroupRevenuesPartition(init, col, ks);
      GroupRevenuesSnoc(init, x, col, ks);
      KeyedSnoc(init, x, col);
      if KeyOf(x, col).Some? {
        RevenueSnoc(Keyed(init, col), x);
      }
    }
  }

  lemma {:induction false} GroupRevenuesEmpty(col: Column, ks: seq<int>)
    ensures GroupRevenues([], col, ks) == 0
    decreases |ks|
  {
    if |ks| > 0 {
      GroupRevenuesEmpty(col, ks[1..]);
    }
  }
}
