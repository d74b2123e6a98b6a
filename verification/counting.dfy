/**
 Frequency tables: the model of pandas `Series.value_counts`.

 A table is a sequence of entries (value, number of occurrences). `Tally`
 counts in first-seen order; `ByCountDesc` orders a table by decreasing
 count (the `value_counts()` default) and `ByKeyAsc` by increasing key (the
 `sort_index(ascending=True)` that follows it for review scores).
 */
module Counting {

  datatype Entry<K> = Entry(key: K, count: nat)

  /** `t` has an entry for `k`. */
  predicate HasKey<K(==)>(t: seq<Entry<K>>, k: K) {
    exists i :: 0 <= i < |t| && t[i].key == k
  }

  /** No value has two entries. */
  predicate DistinctKeys<K(==)>(t: seq<Entry<K>>) {
    forall i, j :: 0 <= i < j < |t| ==> t[i].key != t[j].key
  }

  /** Counts never increase along the table. */
  predicate NonIncreasing<K(==)>(t: seq<Entry<K>>) {
    forall i, j :: 0 <= i < j < |t| ==> t[i].count >= t[j].count
  }

  /** Keys strictly increase along the table. */
  predicate Ascending(t: seq<Entry<int>>) {
    forall i, j :: 0 <= i < j < |t| ==> t[i].key < t[j].key
  }

  /** The sum of the counts of a table. */
  function SumCounts<K(==)>(t: seq<Entry<K>>): nat {
    if |t| == 0 then 0 else t[0].count + SumCounts(t[1..])
  }

  /** The count a table records for `k` (0 when it has no entry). */
  function CountOf<K(==)>(t: seq<Entry<K>>, k: K): nat {
    if |t| == 0 then 0
    else if t[0].key == k then t[0].count
    else CountOf(t[1..], k)
  }

  /** The table is a faithful frequency table of `xs`: one entry per distinct
      value of `xs`, each carrying that value's number of occurrences. */
  ghost predicate Tallies<K(!new)>(t: seq<Entry<K>>, xs: seq<K>) {
    && DistinctKeys(t)
    && (forall k :: k in xs <==> HasKey(t, k))
    && (forall i :: 0 <= i < |t| ==> t[i].count == multiset(xs)[t[i].key])
    && (forall i :: 0 <= i < |t| ==> t[i].count > 0)
  }

  lemma {:induction false} CountOfEntry<K>(t: seq<Entry<K>>, i: int)
    requires DistinctKeys(t) && 0 <= i < |t|
    ensures CountOf(t, t[i].key) == t[i].count
    decreases i
  {
    if i > 0 {
      assert t[0].key != t[i].key;
      assert t[1..][i - 1] == t[i];
      CountOfEntry(t[1..], i - 1);
    }
  }

  /** The keys of a table are its first key and the keys of the rest. */
  lemma HasKeyCons<K>(e: Entry<K>, t: seq<Entry<K>>)
    ensures forall k :: HasKey([e] + t, k) <==> k == e.key || HasKey(t, k)
  {
    var r := [e] + t;
    forall k ensures HasKey(r, k) <==> k == e.key || HasKey(t, k) {
      assert r[0].key == e.key;
      if HasKey(r, k) && k != e.key {
        var i :| 0 <= i < |r| && r[i].key == k;
        assert t[i - 1].key == k;
      }
      if HasKey(t, k) {
        var i :| 0 <= i < |t| && t[i].key == k;
        assert r[i + 1].key == k;
      }
    }
  }

  /** Records one more occurrence of `x`: bumps its entry, or appends a new
      entry with count 1 when `x` has not been seen yet. */
  function AddOne<K(==,!new)>(t: seq<Entry<K>>, x: K): (r: seq<Entry<K>>)
    requires DistinctKeys(t)
    ensures DistinctKeys(r)
    ensures forall k :: HasKey(r, k) <==> HasKey(t, k) || k == x
    ensures forall k :: CountOf(r, k) == CountOf(t, k) + (if k == x then 1 else 0)
    ensures SumCounts(r) == SumCounts(t) + 1
    ensures forall i :: 0 <= i < |r| ==> r[i].count > 0 || (i < |t| && r[i] == t[i])
    decreases |t|
  {
    if |t| == 0 then
      assert [Entry(x, 1)][0].key == x;
      [Entry(x, 1)]
    else
      assert t == [t[0]] + t[1..];
      HasKeyCons(t[0], t[1..]);
      if t[0].key == x then
        var r := [Entry(x, t[0].count + 1)] + t[1..];
        assert r[1..] == t[1..];
        HasKeyCons(r[0], t[1..]);
        r
      else
        var rest := AddOne(t[1..], x);
        var r := [t[0]] + rest;
        assert r[1..] == rest;
        HasKeyCons(t[0], rest);
        assert !HasKey(t[1..], t[0].key) by {
          forall i | 0 <= i < |t[1..]| ensures t[1..][i].key != t[0].key {
            assert t[1..][i] == t[i + 1];
          }
        }
        assert forall j :: 0 <= j < |rest| ==> rest[j].key != t[0].key by {
          forall j | 0 <= j < |rest| ensures rest[j].key != t[0].key {
            assert rest[j].key == t[0].key ==> HasKey(rest, t[0].key);
          }
        }
        r
  }

  /** The frequency table of `xs`, in first-seen order. */
  function Tally<K(==,!new)>(xs: seq<K>): (r: seq<Entry<K>>)
    ensures DistinctKeys(r)
    ensures forall k :: k in xs <==> HasKey(r, k)
    ensures forall k :: CountOf(r, k) == multiset(xs)[k]
    ensures SumCounts(r) == |xs|
    ensures forall i :: 0 <= i < |r| ==> r[i].count > 0
    decreases |xs|
  {
    if |xs| == 0 then []
    else
      var init := xs[..|xs| - 1];
      var x := xs[|xs| - 1];
      assert xs == init + [x];
      AddOne(Tally(init), x)
  }

  lemma TallyTallies<K(!new)>(xs: seq<K>)
    ensures Tallies(Tally(xs), xs)
  {
    var t := Tally(xs);
    forall i | 0 <= i < |t| ensures t[i].count == multiset(xs)[t[i].key] {
      CountOfEntry(t, i);
    }
  }

  /** Inserts `e` into a table ordered by decreasing count, ahead of the
      entries whose count it equals. */
  function InsertByCount<K>(e: Entry<K>, t: seq<Entry<K>>): (r: seq<Entry<K>>)
    ensures multiset(r) == multiset(t) + multiset{e}
    decreases |t|
  {
    if |t| == 0 || t[0].count <= e.count then
      [e] + t
    else
      assert t == [t[0]] + t[1..];
      [t[0]] + InsertByCount(e, t[1..])
  }

  /** An entry of a table is an entry of any permutation of it. */
  lemma EntryOfPermutation<K>(u: seq<Entry<K>>, t: seq<Entry<K>>, j: int)
    requires multiset(u) == multiset(t) && 0 <= j < |u|
    ensures exists i :: 0 <= i < |t| && t[i] == u[j]
  {
    assert u[j] in multiset(u);
    assert u[j] in t;
  }

  lemma {:induction false} InsertByCountOrdered<K>(e: Entry<K>, t: seq<Entry<K>>)
    requires NonIncreasing(t)
    ensures NonIncreasing(InsertByCount(e, t))
    decreases |t|
  {
    if |t| > 0 && t[0].count > e.count {
      var rest := InsertByCount(e, t[1..]);
      InsertByCountOrdered(e, t[1..]);
      assert multiset(rest) == multiset(t[1..] + [e]);
      forall j | 0 <= j < |rest| ensures rest[j].count <= t[0].count {
        EntryOfPermutation(rest, t[1..] + [e], j);
      }
    }
  }

  lemma {:induction false} InsertByCountSum<K>(e: Entry<K>, t: seq<Entry<K>>)
    ensures SumCounts(InsertByCount(e, t)) == SumCounts(t) + e.count
    decreases |t|
  {
    if |t| > 0 && t[0].count > e.count {
      InsertByCountSum(e, t[1..]);
      assert ([t[0]] + InsertByCount(e, t[1..]))[1..] == InsertByCount(e, t[1..]);
    } else {
      assert ([e] + t)[1..] == t;
    }
  }

  lemma {:induction false} InsertByCountDistinct<K>(e: Entry<K>, t: seq<Entry<K>>)
    requires DistinctKeys(t) && !HasKey(t, e.key)
    ensures DistinctKeys(InsertByCount(e, t))
    decreases |t|
  {
    if |t| == 0 || t[0].count <= e.count {
      var r := [e] + t;
      forall i, j | 0 <= i < j < |r| ensures r[i].key != r[j].key {
        if i == 0 {
          assert r[j] == t[j - 1];
        } else {
          assert r[i] == t[i - 1] && r[j] == t[j - 1];
        }
      }
    } else {
      var rest := InsertByCount(e, t[1..]);
      HasKeyCons(t[0], t[1..]);
      assert t == [t[0]] + t[1..];
      assert DistinctKeys(t[1..]) by {
        forall i, j | 0 <= i < j < |t[1..]| ensures t[1..][i].key != t[1..][j].key {
          assert t[1..][i] == t[i + 1] && t[1..][j] == t[j + 1];
        }
      }
      InsertByCountDistinct(e, t[1..]);
      assert multiset(rest) == multiset(t[1..] + [e]);
      forall j | 0 <= j < |rest| ensures rest[j].key != t[0].key {
        EntryOfPermutation(rest, t[1..] + [e], j);
        var i :| 0 <= i < |t[1..] + [e]| && (t[1..] + [e])[i] == rest[j];
        if i < |t[1..]| {
          assert rest[j] == t[i + 1];
        } else {
          assert rest[j] == e;
          assert t[0].key != e.key;
        }
      }
      var r := [t[0]] + rest;
      forall i, j | 0 <= i < j < |r| ensures r[i].key != r[j].key {
        if i == 0 {
          assert r[j] == rest[j - 1];
        } else {
          assert r[i] == rest[i - 1] && r[j] == rest[j - 1];
        }
      }
    }
  }

  /** The tail of a table with distinct keys has distinct keys, none of them
      the head's key, and so does any reordering of the tail. */
  lemma DistinctTail<K>(t: seq<Entry<K>>, rest: seq<Entry<K>>)
    requires DistinctKeys(t) && |t| > 0
    requires multiset(rest) == multiset(t[1..])
    ensures DistinctKeys(t[1..])
    ensures forall j :: 0 <= j < |rest| ==> rest[j].key != t[0].key
  {
    forall i, j | 0 <= i < j < |t[1..]| ensures t[1..][i].key != t[1..][j].key {
      assert t[1..][i] == t[i + 1] && t[1..][j] == t[j + 1];
    }
    forall j | 0 <= j < |rest| ensures rest[j].key != t[0].key {
      EntryOfPermutation(rest, t[1..], j);
      var i :| 0 <= i < |t[1..]| && t[1..][i] == rest[j];
      assert t[i + 1] == rest[j];
    }
  }

  /** The entries of `t` ordered by decreasing count (insertion sort). */
  function ByCountDesc<K(==)>(t: seq<Entry<K>>): (r: seq<Entry<K>>)
    ensures NonIncreasing(r)
    ensures multiset(r) == multiset(t)
    ensures SumCounts(r) == SumCounts(t)
    ensures DistinctKeys(t) ==> DistinctKeys(r)
    decreases |t|
  {
    if |t| == 0 then []
    else
      assert t == [t[0]] + t[1..];
      var rest := ByCountDesc(t[1..]);
      InsertByCountOrdered(t[0], rest);
      InsertByCountSum(t[0], rest);
      if DistinctKeys(t) then
        DistinctTail(t, rest);
        assert !HasKey(rest, t[0].key);
        InsertByCountDistinct(t[0], rest);
        InsertByCount(t[0], rest)
      else
        InsertByCount(t[0], rest)
  }

  /** Inserts `e` ahead of the first entry with a larger key. */
  function InsertByKey(e: Entry<int>, t: seq<Entry<int>>): (r: seq<Entry<int>>)
    ensures multiset(r) == multiset(t) + multiset{e}
    decreases |t|
  {
    if |t| == 0 || e.key < t[0].key then [e] + t
    else
      assert t == [t[0]] + t[1..];
      [t[0]] + InsertByKey(e, t[1..])
  }

  /** Inserting a new key into a table with ascending keys keeps the keys
      ascending. */
  lemma {:induction false} InsertByKeyAscending(e: Entry<int>, t: seq<Entry<int>>)
    requires Ascending(t)
    requires forall i :: 0 <= i < |t| ==> t[i].key != e.key
    ensures Ascending(InsertByKey(e, t))
    decreases |t|
  {
    if |t| > 0 && e.key >= t[0].key {
      var rest := InsertByKey(e, t[1..]);
      InsertByKeyAscending(e, t[1..]);
      assert multiset(rest) == multiset(t[1..] + [e]);
      forall j | 0 <= j < |rest| ensures t[0].key < rest[j].key {
        EntryOfPermutation(rest, t[1..] + [e], j);
      }
    }
  }

  lemma {:induction false} InsertByKeySum(e: Entry<int>, t: seq<Entry<int>>)
    ensures SumCounts(InsertByKey(e, t)) == SumCounts(t) + e.count
    decreases |t|
  {
    if |t| > 0 && e.key >= t[0].key {
      InsertByKeySum(e, t[1..]);
      assert ([t[0]] + InsertByKey(e, t[1..]))[1..] == InsertByKey(e, t[1..]);
    } else {
      assert ([e] + t)[1..] == t;
    }
  }

  /** The entries of a table with distinct keys, by ascending key. */
  function ByKeyAsc(t: seq<Entry<int>>): (r: seq<Entry<int>>)
    requires DistinctKeys(t)
    ensures Ascending(r)
    ensures multiset(r) == multiset(t)
    ensures SumCounts(r) == SumCounts(t)
    decreases |t|
  {
    if |t| == 0 then []
    else
      assert t == [t[0]] + t[1..];
      DistinctTail(t, t[1..]);
      var rest := ByKeyAsc(t[1..]);
      DistinctTail(t, rest);
      InsertByKeyAscending(t[0], rest);
      InsertByKeySum(t[0], rest);
      InsertByKey(t[0], rest)
  }

  /** Reordering a frequency table keeps it a frequency table of the same
      values. */
  lemma PermutedTally<K(!new)>(t: seq<Entry<K>>, u: seq<Entry<K>>, xs: seq<K>)
    requires Tallies(t, xs) && DistinctKeys(u)
    requires multiset(u) == multiset(t)
    ensures Tallies(u, xs)
  {
    forall k ensures HasKey(u, k) <==> HasKey(t, k) {
      if HasKey(u, k) {
        var i :| 0 <= i < |u| && u[i].key == k;
        assert u[i] in multiset(u);
        var j :| 0 <= j < |t| && t[j] == u[i];
      }
      if HasKey(t, k) {
        var j :| 0 <= j < |t| && t[j].key == k;
        assert t[j] in multiset(t);
        var i :| 0 <= i < |u| && u[i] == t[j];
      }
    }
    forall i | 0 <= i < |u| ensures u[i].count == multiset(xs)[u[i].key] && u[i].count > 0 {
      assert u[i] in multiset(u);
      var j :| 0 <= j < |t| && t[j] == u[i];
    }
  }

  /** The key column of a table. */
  function KeysOf<K>(t: seq<Entry<K>>): (ks: seq<K>)
    ensures |ks| == |t|
    ensures forall i :: 0 <= i < |t| ==> ks[i] == t[i].key
    decreases |t|
  {
    if |t| == 0 then [] else [t[0].key] + KeysOf(t[1..])
  }

  lemma KeysOfHas<K>(t: seq<Entry<K>>, k: K)
    ensures k in KeysOf(t) <==> HasKey(t, k)
  {
    var ks := KeysOf(t);
    if k in ks {
      var i :| 0 <= i < |ks| && ks[i] == k;
      assert t[i].key == k;
    }
  }

  /** The first `n` entries of a table (`head(n)`). */
  function Head<K>(t: seq<Entry<K>>, n: nat): (h: seq<Entry<K>>)
    ensures |h| == if |t| < n then |t| else n
    ensures forall i :: 0 <= i < |h| ==> h[i] == t[i]
  {
    if |t| <= n then t else t[..n]
  }

  /** A head keeps the keys distinct and the counts non-increasing. */
  lemma HeadOrdered<K>(t: seq<Entry<K>>, n: nat)
    requires DistinctKeys(t) && NonIncreasing(t)
    ensures DistinctKeys(Head(t, n)) && NonIncreasing(Head(t, n))
  {
  }

  /** Top-k dominance: in a table ordered by decreasing count, an entry the
      head leaves out comes after a full head, and counts no more than the
      head's last entry. */
  lemma HeadDominate<K>(t: seq<Entry<K>>, n: nat, i: int)
    requires NonIncreasing(t) && 0 < n && 0 <= i < |t|
    requires !HasKey(Head(t, n), t[i].key)
    ensures |Head(t, n)| == n && t[i].count <= Head(t, n)[n - 1].count
  {
  }

  /** The model of `Series.value_counts()`: the frequency table of `xs`,
      most frequent value first. */
  function ValueCounts<K(==,!new)>(xs: seq<K>): (r: seq<Entry<K>>)
    ensures Tallies(r, xs)
    ensures NonIncreasing(r)
    ensures SumCounts(r) == |xs|
  {
    var t := Tally(xs);
    TallyTallies(xs);
    PermutedTally(t, ByCountDesc(t), xs);
    ByCountDesc(t)
  }

  /** The model of `Series.value_counts().sort_index(ascending=True)` on an
      integer column: the frequency table of `xs`, by ascending value. */
  function ValueCountsByKey(xs: seq<int>): (r: seq<Entry<int>>)
    ensures Tallies(r, xs)
    ensures Ascending(r)
    ensures SumCounts(r) == |xs|
  {
    var t := Tally(xs);
    TallyTallies(xs);
    PermutedTally(t, ByKeyAsc(t), xs);
    ByKeyAsc(t)
  }
}
