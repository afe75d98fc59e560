/** `groupby(key)[amount].sum()` as pandas computes it with its default
    `sort=True`: one entry per distinct key, keys in ascending order, each
    entry holding the sum of the amounts filed under its key. Amounts are
    integers (cents), so summation order does not matter. */
module Grouping {
  import Seqs

  /** A (key, amount) pair: an input row projected to what a group-by reads,
      and also one output group. */
  datatype Entry<K> = Entry(key: K, amount: int)

  /** `less` is a strict total order on K. */
  ghost predicate StrictTotalOrder<K(!new)>(less: (K, K) -> bool)
  {
    && (forall x :: !less(x, x))
    && (forall x, y, z :: less(x, y) && less(y, z) ==> less(x, z))
    && (forall x, y :: x != y ==> less(x, y) || less(y, x))
  }

  /** Keys strictly ascending, hence pairwise distinct. */
  ghost predicate StrictlyAscending<K>(g: seq<Entry<K>>, less: (K, K) -> bool)
  {
    forall i, j :: 0 <= i < j < |g| ==> less(g[i].key, g[j].key)
  }

  function Keys<K>(g: seq<Entry<K>>): set<K>
  {
    set e | e in g :: e.key
  }

  /** Sum of all amounts. */
  function Total<K>(g: seq<Entry<K>>): int
    decreases |g|
  {
    if |g| == 0 then 0 else g[0].amount + Total(g[1..])
  }

  /** Sum of the amounts filed under `key` (0 when the key does not occur):
      the reference meaning of one group. */
  function SumFor<K(==)>(g: seq<Entry<K>>, key: K): int
    decreases |g|
  {
    if |g| == 0 then 0
    else (if g[0].key == key then g[0].amount else 0) + SumFor(g[1..], key)
  }

  lemma {:induction false} SumForAbsent<K>(g: seq<Entry<K>>, key: K)
    requires key !in Keys(g)
    ensures SumFor(g, key) == 0
    decreases |g|
  {
    if |g| > 0 {
      assert g[0] in g;
      assert Keys(g[1..]) <= Keys(g) by {
        forall x | x in Keys(g[1..]) ensures x in Keys(g) {
          var e :| e in g[1..] && e.key == x;
          assert e in g;
        }
      }
      SumForAbsent(g[1..], key);
    }
  }

  lemma KeysCons<K>(e: Entry<K>, g: seq<Entry<K>>)
    ensures Keys([e] + g) == {e.key} + Keys(g)
  {
    var s := [e] + g;
    forall x | x in Keys(s) ensures x in {e.key} + Keys(g) {
      var d :| d in s && d.key == x;
      if d != e {
        assert d in g;
      }
    }
    forall x | x in Keys(g) ensures x in Keys(s) {
      var d :| d in g && d.key == x;
      assert d in s;
    }
    assert e in s;
  }

  /** Adding one amount to the groups `g` (for `key`): an existing group grows,
      or a new group is inserted at its place in key order. */
  function Insert<K(==,!new)>(g: seq<Entry<K>>, key: K, amount: int, less: (K, K) -> bool): (r: seq<Entry<K>>)
    requires StrictTotalOrder(less)
    requires StrictlyAscending(g, less)
    ensures StrictlyAscending(r, less)
    ensures Keys(r) == Keys(g) + {key}
    ensures forall k :: SumFor(r, k) == SumFor(g, k) + (if k == key then amount else 0)
    ensures Total(r) == Total(g) + amount
    decreases |g|
  {
    if |g| == 0 then
      [Entry(key, amount)]
    else if g[0].key == key then
      var r := [Entry(key, g[0].amount + amount)] + g[1..];
      assert r[1..] == g[1..];
      KeysCons(g[0], g[1..]);
      KeysCons(r[0], g[1..]);
      assert g == [g[0]] + g[1..];
      r
    else if less(key, g[0].key) then
      var r := [Entry(key, amount)] + g;
      assert r[1..] == g;
      KeysCons(r[0], g);
      r
    else
      var rest := Insert(g[1..], key, amount, less);
      var r := [g[0]] + rest;
      assert r[1..] == rest;
      KeysCons(g[0], rest);
      KeysCons(g[0], g[1..]);
      assert g == [g[0]] + g[1..];
      HeadBelowRest(g, less);
      ConsAscending(g[0], rest, less);
      r
  }

  /** Every key after the first of ascending groups is above it. */
  lemma HeadBelowRest<K>(g: seq<Entry<K>>, less: (K, K) -> bool)
    requires StrictlyAscending(g, less)
    requires |g| > 0
    ensures forall k :: k in Keys(g[1..]) ==> less(g[0].key, k)
  {
    forall k | k in Keys(g[1..])
      ensures less(g[0].key, k)
    {
      var e :| e in g[1..] && e.key == k;
      var m :| 0 <= m < |g[1..]| && g[1..][m] == e;
      assert g[m + 1] == e;
    }
  }

  /** An entry below every key of ascending groups can go in front of them. */
  lemma ConsAscending<K>(x: Entry<K>, rest: seq<Entry<K>>, less: (K, K) -> bool)
    requires StrictlyAscending(rest, less)
    requires forall k :: k in Keys(rest) ==> less(x.key, k)
    ensures StrictlyAscending([x] + rest, less)
  {
    var r := [x] + rest;
    forall i, j | 0 <= i < j < |r|
      ensures less(r[i].key, r[j].key)
    {
      assert r[j] == rest[j - 1];
      if i == 0 {
        assert rest[j - 1] in rest;
      } else {
        assert r[i] == rest[i - 1];
      }
    }
  }

  /** The group-by itself: every input entry added into the groups of the
      entries after it. */
  function GroupSum<K(==,!new)>(items: seq<Entry<K>>, less: (K, K) -> bool): (r: seq<Entry<K>>)
    requires StrictTotalOrder(less)
    ensures StrictlyAscending(r, less)
    ensures Keys(r) == Keys(items)
    ensures forall k :: SumFor(r, k) == SumFor(items, k)
    ensures Total(r) == Total(items)
    decreases |items|
  {
    if |items| == 0 then []
    else
      assert items == [items[0]] + items[1..];
      KeysCons(items[0], items[1..]);
      Insert(GroupSum(items[1..], less), items[0].key, items[0].amount, less)
  }

  /** The first key of ascending groups occurs nowhere after it. */
  lemma HeadKeyFresh<K(!new)>(g: seq<Entry<K>>, less: (K, K) -> bool)
    requires StrictTotalOrder(less)
    requires StrictlyAscending(g, less)
    requires |g| > 0
    ensures g[0].key !in Keys(g[1..])
  {
    forall e | e in g[1..]
      ensures e.key != g[0].key
    {
      var m :| 0 <= m < |g[1..]| && g[1..][m] == e;
      assert less(g[0].key, g[m + 1].key);
    }
  }

  /** In groups with distinct keys, an entry's amount is the sum for its key. */
  lemma {:induction false} EntryIsSumFor<K(!new)>(g: seq<Entry<K>>, less: (K, K) -> bool, j: int)
    requires StrictTotalOrder(less)
    requires StrictlyAscending(g, less)
    requires 0 <= j < |g|
    ensures SumFor(g, g[j].key) == g[j].amount
    decreases |g|
  {
    if j == 0 {
      HeadKeyFresh(g, less);
      SumForAbsent(g[1..], g[0].key);
    } else {
      assert g[0].key != g[j].key by {
        assert less(g[0].key, g[j].key);
      }
      assert g[1..][j - 1] == g[j];
      EntryIsSumFor(g[1..], less, j - 1);
    }
  }

  /** Groups with distinct keys: one entry per key. */
  lemma {:induction false} AscendingCount<K(!new)>(g: seq<Entry<K>>, less: (K, K) -> bool)
    requires StrictTotalOrder(less)
    requires StrictlyAscending(g, less)
    ensures |Keys(g)| == |g|
    decreases |g|
  {
    if |g| > 0 {
      assert g == [g[0]] + g[1..];
      KeysCons(g[0], g[1..]);
      HeadKeyFresh(g, less);
      AscendingCount(g[1..], less);
    }
  }

  /** What the group-by promises its caller: one entry per distinct key, in
      ascending key order, each holding the sum filed under its key, and
      nothing gained or lost overall. */
  lemma GroupSumMeaning<K(!new)>(items: seq<Entry<K>>, less: (K, K) -> bool)
    requires StrictTotalOrder(less)
    ensures |GroupSum(items, less)| == |Keys(items)|
    ensures forall j :: 0 <= j < |GroupSum(items, less)| ==>
              GroupSum(items, less)[j].amount == SumFor(items, GroupSum(items, less)[j].key)
  {
    var r := GroupSum(items, less);
    AscendingCount(r, less);
    forall j | 0 <= j < |r|
      ensures r[j].amount == SumFor(items, r[j].key)
    {
      EntryIsSumFor(r, less, j);
    }
  }

  /** Sum of the amounts of the entries whose key passes `p`. */
  function TotalWhere<K>(g: seq<Entry<K>>, p: K -> bool): int
    decreases |g|
  {
    if |g| == 0 then 0
    else (if p(g[0].key) then g[0].amount else 0) + TotalWhere(g[1..], p)
  }

  lemma {:induction false} InsertTotalWhere<K(!new)>(g: seq<Entry<K>>, key: K, amount: int,
                                                      less: (K, K) -> bool, p: K -> bool)
    requires StrictTotalOrder(less)
    requires StrictlyAscending(g, less)
    ensures TotalWhere(Insert(g, key, amount, less), p)
            == TotalWhere(g, p) + (if p(key) then amount else 0)
    decreases |g|
  {
    var r := Insert(g, key, amount, less);
    if |g| == 0 {
      assert r == [Entry(key, amount)];
    } else if g[0].key == key {
      assert r == [Entry(key, g[0].amount + amount)] + g[1..];
      assert r[1..] == g[1..];
      assert TotalWhere(r, p) == (if p(key) then g[0].amount + amount else 0) + TotalWhere(g[1..], p);
    } else if less(key, g[0].key) {
      assert r == [Entry(key, amount)] + g;
      assert r[1..] == g;
    } else {
      var rest := Insert(g[1..], key, amount, less);
      assert r == [g[0]] + rest;
      assert r[1..] == rest;
      InsertTotalWhere(g[1..], key, amount, less, p);
      assert TotalWhere(r, p) == (if p(g[0].key) then g[0].amount else 0) + TotalWhere(rest, p);
    }
  }

  /** Grouping neither creates nor loses the amount of any set of keys:
      the groups whose key passes `p` hold exactly the input amounts whose
      key passes `p`. */
  lemma {:induction false} GroupSumTotalWhere<K(!new)>(items: seq<Entry<K>>, less: (K, K) -> bool,
                                                        p: K -> bool)
    requires StrictTotalOrder(less)
    ensures TotalWhere(GroupSum(items, less), p) == TotalWhere(items, p)
    decreases |items|
  {
    if |items| > 0 {
      GroupSumTotalWhere(items[1..], less, p);
      InsertTotalWhere(GroupSum(items[1..], less), items[0].key, items[0].amount, less, p);
    }
  }

  /** Keeping the groups whose key passes `p` keeps exactly their total. */
  lemma {:induction false} FilterTotal<K(!new)>(g: seq<Entry<K>>, keep: Entry<K> -> bool, p: K -> bool)
    requires forall e :: keep(e) == p(e.key)
    ensures Total(Seqs.Filter(g, keep)) == TotalWhere(g, p)
    decreases |g|
  {
    if |g| > 0 {
      var f := Seqs.Filter(g, keep);
      var rest := Seqs.Filter(g[1..], keep);
      FilterTotal(g[1..], keep, p);
      if p(g[0].key) {
        assert f == [g[0]] + rest;
        assert f[1..] == rest;
      } else {
        assert f == rest;
      }
    }
  }
}
