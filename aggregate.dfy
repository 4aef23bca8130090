/** `GROUP BY` over rows reduced to (key, weight) pairs: one group per distinct
    key, in order of first appearance, carrying COUNT(*), SUM(weight) and
    MAX(weight) of the rows with that key. */
module Aggregate {
  import opened Seqs

  datatype Group<K> = Group(key: K, rows: nat, total: int, top: int)

  function RowsOf<K>(g: Group<K>): int { g.rows }
  function TotalOf<K>(g: Group<K>): int { g.total }
  function TopOf<K>(g: Group<K>): int { g.top }
  function Weight<K>(p: (K, int)): int { p.1 }
  function Self(x: int): int { x }

  /** The weights of the rows whose key is `k`, in row order. */
  function WeightsOf<K(==,!new)>(items: seq<(K, int)>, k: K): (w: seq<int>)
    ensures |w| <= |items|
    ensures forall x :: x in w <==> (k, x) in items
  {
    if items == [] then []
    else
      var rest := WeightsOf(items[1..], k);
      assert forall p :: p in items <==> p == items[0] || p in items[1..];
      (if items[0].0 == k then [items[0].1] else []) + rest
  }

  /** The largest element of a non-empty sequence. */
  function Max(w: seq<int>): (m: int)
    requires |w| > 0
    ensures m in w
    ensures forall x :: x in w ==> x <= m
  {
    if |w| == 1 then w[0]
    else
      var m := Max(w[1..]);
      assert forall x :: x in w ==> x == w[0] || x in w[1..];
      if w[0] >= m then w[0] else m
  }

  function KeySet<K>(items: seq<(K, int)>): set<K>
  {
    set p | p in items :: p.0
  }

  /** The group `GROUP BY` forms for key `k`: how many rows carry `k`, the sum
      of their weights and the largest of them. */
  function GroupOf<K(==,!new)>(items: seq<(K, int)>, k: K): Group<K>
    requires k in KeySet(items)
  {
    var w := WeightsOf(items, k);
    var p :| p in items && p.0 == k;
    assert p.1 in w;
    Group(k, |w|, SumOf(w, Self), Max(w))
  }

  /** The rows without key `k`, in order. */
  function Without<K(==,!new)>(items: seq<(K, int)>, k: K): (r: seq<(K, int)>)
    ensures |r| <= |items|
    ensures forall p :: p in r <==> p in items && p.0 != k
  {
    if items == [] then []
    else
      assert forall p :: p in items <==> p == items[0] || p in items[1..];
      (if items[0].0 != k then [items[0]] else []) + Without(items[1..], k)
  }

  lemma {:induction false} WithoutKeepsOtherKeys<K(!new)>(items: seq<(K, int)>, k0: K, k: K)
    requires k != k0
    ensures WeightsOf(Without(items, k0), k) == WeightsOf(items, k)
  {
    if items != [] {
      WithoutKeepsOtherKeys(items[1..], k0, k);
      var tail := Without(items[1..], k0);
      if items[0].0 != k0 {
        assert Without(items, k0) == [items[0]] + tail;
        assert ([items[0]] + tail)[1..] == tail;
      } else {
        assert Without(items, k0) == tail;
      }
    }
  }

  /** Splitting the rows by whether they carry `k` splits their count and
      their weight sum. */
  lemma {:induction false} SplitByKey<K(!new)>(items: seq<(K, int)>, k: K)
    ensures |WeightsOf(items, k)| + |Without(items, k)| == |items|
    ensures SumOf(WeightsOf(items, k), Self) + SumOf(Without(items, k), Weight) == SumOf(items, Weight)
  {
    if items != [] {
      SplitByKey(items[1..], k);
      var w := WeightsOf(items[1..], k);
      var o := Without(items[1..], k);
      if items[0].0 == k {
        assert WeightsOf(items, k) == [items[0].1] + w;
        assert ([items[0].1] + w)[1..] == w;
        assert Without(items, k) == o;
      } else {
        assert WeightsOf(items, k) == w;
        assert Without(items, k) == [items[0]] + o;
        assert ([items[0]] + o)[1..] == o;
      }
    }
  }

  predicate DistinctKeys<K(==)>(r: seq<Group<K>>)
  {
    forall i, j :: 0 <= i < j < |r| ==> r[i].key != r[j].key
  }

  function GroupKeys<K>(r: seq<Group<K>>): set<K>
  {
    set g | g in r :: g.key
  }

  /** Every group is the group `GroupOf` describes for its key. */
  predicate GroupsFaithful<K(==,!new)>(items: seq<(K, int)>, r: seq<Group<K>>)
  {
    forall g :: g in r ==> g.key in KeySet(items) && g == GroupOf(items, g.key)
  }

  /** `GROUP BY key`: exactly one group per key that occurs, each the group
      `GroupOf` describes; the group sizes add up to the number of rows and
      the group sums to the sum of all weights. */
  function GroupBy<K(==,!new)>(items: seq<(K, int)>): (r: seq<Group<K>>)
    ensures GroupKeys(r) == KeySet(items)
    ensures GroupsFaithful(items, r)
    ensures DistinctKeys(r)
    ensures SumOf(r, RowsOf) == |items|
    ensures SumOf(r, TotalOf) == SumOf(items, Weight)
    decreases |items|
  {
    if items == [] then []
    else
      var k := items[0].0;
      var tail := GroupBy(Without(items[1..], k));
      GroupByStepKeys(items, tail);
      GroupByStepFaithful(items, tail);
      GroupByStepSums(items, tail);
      [GroupOf(items, k)] + tail
  }

  lemma GroupByStepKeys<K(!new)>(items: seq<(K, int)>, tail: seq<Group<K>>)
    requires items != []
    requires GroupKeys(tail) == KeySet(Without(items[1..], items[0].0))
    requires DistinctKeys(tail)
    ensures items[0].0 in KeySet(items)
    ensures GroupKeys([GroupOf(items, items[0].0)] + tail) == KeySet(items)
    ensures DistinctKeys([GroupOf(items, items[0].0)] + tail)
  {
    var k := items[0].0;
    var rest := Without(items[1..], k);
    assert KeySet(rest) == KeySet(items[1..]) - {k};
    assert KeySet(items) == {k} + KeySet(items[1..]) by {
      assert forall p :: p in items <==> p == items[0] || p in items[1..];
    }
    var r := [GroupOf(items, k)] + tail;
    assert forall g :: g in r <==> g == r[0] || g in tail;
    assert GroupKeys(r) == {k} + GroupKeys(tail);
    assert forall j :: 0 <= j < |tail| ==> tail[j] in tail;
    assert r[1..] == tail;
  }

  lemma GroupByStepFaithful<K(!new)>(items: seq<(K, int)>, tail: seq<Group<K>>)
    requires items != []
    requires GroupsFaithful(Without(items[1..], items[0].0), tail)
    ensures items[0].0 in KeySet(items)
    ensures GroupsFaithful(items, [GroupOf(items, items[0].0)] + tail)
  {
    var k := items[0].0;
    var rest := Without(items[1..], k);
    assert items[0] in items;
    forall g | g in tail ensures g.key in KeySet(items) && g == GroupOf(items, g.key) {
      var p :| p in rest && p.0 == g.key;
      assert p in items;
      WithoutKeepsOtherKeys(items[1..], k, g.key);
      assert WeightsOf(items, g.key) == WeightsOf(items[1..], g.key);
    }
  }

  lemma GroupByStepSums<K(!new)>(items: seq<(K, int)>, tail: seq<Group<K>>)
    requires items != []
    requires SumOf(tail, RowsOf) == |Without(items[1..], items[0].0)|
    requires SumOf(tail, TotalOf) == SumOf(Without(items[1..], items[0].0), Weight)
    ensures items[0].0 in KeySet(items)
    ensures SumOf([GroupOf(items, items[0].0)] + tail, RowsOf) == |items|
    ensures SumOf([GroupOf(items, items[0].0)] + tail, TotalOf) == SumOf(items, Weight)
  {
    var k := items[0].0;
    assert items[0] in items;
    SplitByKey(items[1..], k);
    assert WeightsOf(items, k) == [items[0].1] + WeightsOf(items[1..], k);
    assert ([items[0].1] + WeightsOf(items[1..], k))[1..] == WeightsOf(items[1..], k);
    var r := [GroupOf(items, k)] + tail;
    assert r[1..] == tail;
  }

  /** Groups with pairwise different keys have as many keys as groups. */
  lemma {:induction false} DistinctKeysCount<K>(r: seq<Group<K>>)
    requires DistinctKeys(r)
    ensures |GroupKeys(r)| == |r|
  {
    if r != [] {
      DistinctKeysCount(r[1..]);
      assert GroupKeys(r) == {r[0].key} + GroupKeys(r[1..]) by {
        assert forall g :: g in r <==> g == r[0] || g in r[1..];
      }
      assert r[0].key !in GroupKeys(r[1..]);
    }
  }

  // ---- GROUP BY over the rows of a table ----

  /** The (key, weight) pair of each row, in row order. */
  function Pairs<T, K>(rows: seq<T>, key: T -> K, weight: T -> int): (items: seq<(K, int)>)
    ensures |items| == |rows|
    ensures forall i :: 0 <= i < |rows| ==> items[i] == (key(rows[i]), weight(rows[i]))
  {
    seq(|rows|, i requires 0 <= i < |rows| => (key(rows[i]), weight(rows[i])))
  }

  /** The rows whose key is `k`, in row order. */
  function RowsWith<T(==,!new), K(==)>(rows: seq<T>, key: T -> K, k: K): (r: seq<T>)
    ensures |r| <= |rows|
    ensures forall x :: x in r <==> x in rows && key(x) == k
  {
    if rows == [] then []
    else
      assert forall x :: x in rows <==> x == rows[0] || x in rows[1..];
      (if key(rows[0]) == k then [rows[0]] else []) + RowsWith(rows[1..], key, k)
  }

  function KeysOf<T(==,!new), K>(rows: seq<T>, key: T -> K): set<K>
  {
    set x | x in rows :: key(x)
  }

  lemma {:induction false} PairsWeights<T(!new), K(!new)>(rows: seq<T>, key: T -> K, weight: T -> int, k: K)
    ensures |WeightsOf(Pairs(rows, key, weight), k)| == |RowsWith(rows, key, k)|
    ensures SumOf(WeightsOf(Pairs(rows, key, weight), k), Self) == SumOf(RowsWith(rows, key, k), weight)
  {
    if rows != [] {
      PairsWeights(rows[1..], key, weight, k);
      var items := Pairs(rows, key, weight);
      assert items[1..] == Pairs(rows[1..], key, weight);
      var head := if key(rows[0]) == k then [rows[0]] else [];
      var w := if key(rows[0]) == k then [weight(rows[0])] else [];
      SumOfConcat(head, RowsWith(rows[1..], key, k), weight);
      SumOfConcat(w, WeightsOf(items[1..], k), Self);
    }
  }

  lemma PairsKeys<T(!new), K>(rows: seq<T>, key: T -> K, weight: T -> int)
    ensures KeySet(Pairs(rows, key, weight)) == KeysOf(rows, key)
  {
    var items := Pairs(rows, key, weight);
    forall k | k in KeysOf(rows, key) ensures k in KeySet(items) {
      var x :| x in rows && key(x) == k;
      var i :| 0 <= i < |rows| && rows[i] == x;
      assert items[i] in items;
    }
  }

  /** What `GROUP BY key` reports for the group `g` of a table: the key
      occurs, `COUNT(*)` is the number of rows with that key, `SUM(weight)`
      their total weight and `MAX(weight)` the weight of one of them that no
      other exceeds. */
  predicate Describes<T(==,!new), K(==)>(rows: seq<T>, key: T -> K, weight: T -> int, g: Group<K>)
  {
    var mine := RowsWith(rows, key, g.key);
    && g.rows == |mine| > 0
    && g.total == SumOf(mine, weight)
    && (exists x :: x in mine && weight(x) == g.top)
    && (forall x :: x in mine ==> weight(x) <= g.top)
  }

  /** `GROUP BY key` over a table forms one group per key that occurs, each
      described by the table's own rows. */
  lemma GroupByRows<T(!new), K(!new)>(rows: seq<T>, key: T -> K, weight: T -> int)
    ensures GroupKeys(GroupBy(Pairs(rows, key, weight))) == KeysOf(rows, key)
    ensures forall g :: g in GroupBy(Pairs(rows, key, weight)) ==> Describes(rows, key, weight, g)
  {
    var items := Pairs(rows, key, weight);
    PairsKeys(rows, key, weight);
    forall g | g in GroupBy(items) ensures Describes(rows, key, weight, g) {
      var w := WeightsOf(items, g.key);
      var mine := RowsWith(rows, key, g.key);
      PairsWeights(rows, key, weight, g.key);
      assert g.top in w;
      var i :| 0 <= i < |items| && items[i] == (g.key, g.top);
      assert rows[i] in mine;
      forall x | x in mine ensures weight(x) <= g.top {
        var j :| 0 <= j < |rows| && rows[j] == x;
        assert items[j] in items;
      }
    }
  }

  lemma {:induction false} PairsSum<T, K>(rows: seq<T>, key: T -> K, weight: T -> int)
    ensures SumOf(Pairs(rows, key, weight), Weight) == SumOf(rows, weight)
  {
    if rows != [] {
      PairsSum(rows[1..], key, weight);
      assert Pairs(rows, key, weight)[1..] == Pairs(rows[1..], key, weight);
    }
  }

  function Ordered<T, K(==,!new)>(rows: seq<T>, key: T -> K, weight: T -> int, order: Group<K> -> int): seq<Group<K>>
  {
    SortBy(GroupBy(Pairs(rows, key, weight)), order)
  }

  /** `GROUP BY key ORDER BY order`: the groups come out in `order`, largest
      first, one per key that occurs. */
  lemma OrderedKeys<T(!new), K(!new)>(rows: seq<T>, key: T -> K, weight: T -> int, order: Group<K> -> int)
    ensures SortedDesc(Ordered(rows, key, weight, order), order)
    ensures GroupKeys(Ordered(rows, key, weight, order)) == KeysOf(rows, key)
    ensures |Ordered(rows, key, weight, order)| == |KeysOf(rows, key)|
  {
    var groups := GroupBy(Pairs(rows, key, weight));
    var r := SortBy(groups, order);
    assert forall x :: x in r <==> x in multiset(r);
    assert GroupKeys(r) == GroupKeys(groups);
    GroupByRows(rows, key, weight);
    DistinctKeysCount(groups);
  }

  /** Each group is described by the table's own rows. */
  lemma OrderedDescribes<T(!new), K(!new)>(rows: seq<T>, key: T -> K, weight: T -> int, order: Group<K> -> int, g: Group<K>)
    requires g in Ordered(rows, key, weight, order)
    ensures g.key in KeysOf(rows, key)
    ensures Describes(rows, key, weight, g)
  {
    var groups := GroupBy(Pairs(rows, key, weight));
    assert g in multiset(Ordered(rows, key, weight, order));
    GroupByRows(rows, key, weight);
  }

  /** The counts add up to the number of rows and the sums to their total
      weight. */
  lemma OrderedSums<T, K(!new)>(rows: seq<T>, key: T -> K, weight: T -> int, order: Group<K> -> int)
    ensures SumOf(Ordered(rows, key, weight, order), RowsOf) == |rows|
    ensures SumOf(Ordered(rows, key, weight, order), TotalOf) == SumOf(rows, weight)
  {
    var groups := GroupBy(Pairs(rows, key, weight));
    SumOfSortBy(groups, order, RowsOf);
    SumOfSortBy(groups, order, TotalOf);
    PairsSum(rows, key, weight);
  }
}
