/**
 * The dashboard's `stats` helpers: mean and median of the analysis times,
 * grouping rows by a column, counting rows per column value and the N most
 * frequent values. A JavaScript object used as a dictionary is a sequence of
 * entries in the order their keys were first added.
 */
module DashboardStats {
  import opened Wrappers
  import opened Sorting
  import opened GroupSum

  // ------------------------------------------------------------ mean, median

  function Sum(xs: seq<int>): int
    decreases |xs|
  {
    if |xs| == 0 then 0 else Sum(xs[..|xs| - 1]) + xs[|xs| - 1]
  }

  /** `stats.mean`: 0 for no values. */
  function Mean(xs: seq<int>): real {
    if |xs| == 0 then 0.0 else Sum(xs) as real / |xs| as real
  }

  lemma {:induction false} SumBounds(xs: seq<int>, lo: int, hi: int)
    requires forall i :: 0 <= i < |xs| ==> lo <= xs[i] <= hi
    ensures lo * |xs| <= Sum(xs) <= hi * |xs|
    decreases |xs|
  {
    if |xs| > 0 {
      var init := xs[..|xs| - 1];
      SumBounds(init, lo, hi);
      var n := |init|;
      assert Sum(xs) == Sum(init) + xs[n];
      assert lo * (n + 1) == lo * n + lo && hi * (n + 1) == hi * n + hi;
    }
  }

  /** The mean lies between any lower and upper bound of the values. */
  lemma MeanBounds(xs: seq<int>, lo: int, hi: int)
    requires |xs| > 0
    requires forall i :: 0 <= i < |xs| ==> lo <= xs[i] <= hi
    ensures lo as real <= Mean(xs) <= hi as real
  {
    SumBounds(xs, lo, hi);
    var n := |xs| as real;
    assert lo as real * n <= Sum(xs) as real <= hi as real * n;
    DivideBounds(lo as real, Sum(xs) as real, hi as real, n);
  }

  lemma DivideBounds(lo: real, s: real, hi: real, n: real)
    requires n > 0.0 && lo * n <= s <= hi * n
    ensures lo <= s / n <= hi
  {
  }

  /** The numeric comparator `(a, b) => a - b`. */
  function IntLe(a: int, b: int): bool { a <= b }

  lemma IntLeOrder()
    ensures TotalPreorder(IntLe) && Antisymmetric(IntLe)
  {
  }

  /** `stats.median`: 0 for no values, else the middle value, or the mean of the two middle values. */
  function Median(xs: seq<int>): real {
    if |xs| == 0 then 0.0 else Middle(Sort(xs, IntLe))
  }

  /** The middle value of sorted values, or the mean of the two middle ones. */
  function Middle(sorted: seq<int>): real
    requires |sorted| > 0
  {
    var mid := |sorted| / 2;
    if |sorted| % 2 != 0 then sorted[mid] as real
    else (sorted[mid - 1] + sorted[mid]) as real / 2.0
  }

  /** Both statistics are 0 for no values. */
  lemma EmptyStats()
    ensures Mean([]) == 0.0 && Median([]) == 0.0
  {
  }

  /** The median does not depend on the order of the values. */
  lemma MedianOrderFree(xs: seq<int>, ys: seq<int>)
    requires multiset(xs) == multiset(ys)
    ensures Median(xs) == Median(ys)
  {
    IntLeOrder();
    SortSorted(xs, IntLe);
    SortSorted(ys, IntLe);
    SortedUnique(Sort(xs, IntLe), Sort(ys, IntLe), IntLe);
  }

  /** On sorted values the median is the middle value, or the mean of the two middle ones. */
  lemma MedianOfSorted(xs: seq<int>)
    requires |xs| > 0 && SortedBy(xs, IntLe)
    ensures |xs| % 2 == 1 ==> Median(xs) == xs[|xs| / 2] as real
    ensures |xs| % 2 == 0 ==> Median(xs) == (xs[|xs| / 2 - 1] + xs[|xs| / 2]) as real / 2.0
  {
    IntLeOrder();
    SortOfSorted(xs, IntLe);
  }

  /** The median lies between two of the values. */
  lemma MedianBetween(xs: seq<int>)
    requires |xs| > 0
    ensures exists i, j :: 0 <= i < |xs| && 0 <= j < |xs| && xs[i] as real <= Median(xs) <= xs[j] as real
  {
    IntLeOrder();
    var s := Sort(xs, IntLe);
    SortSorted(xs, IntLe);
    var mid := |s| / 2;
    var lo := if |s| % 2 != 0 then mid else mid - 1;
    assert IntLe(s[lo], s[mid]);
    MedianMiddle(s, lo, mid);
    var i := SameElement(s, xs, lo);
    var j := SameElement(s, xs, mid);
    assert xs[i] as real <= Median(xs) <= xs[j] as real;
  }

  lemma MedianMiddle(s: seq<int>, lo: int, mid: int)
    requires |s| > 0
    requires mid == |s| / 2 && lo == (if |s| % 2 != 0 then mid else mid - 1)
    requires 0 <= lo < |s| && s[lo] <= s[mid]
    ensures s[lo] as real <= Middle(s) <= s[mid] as real
  {
    if |s| % 2 == 0 {
      HalfBetween(s[lo], s[mid]);
    }
  }

  lemma HalfBetween(a: int, b: int)
    requires a <= b
    ensures a as real <= (a + b) as real / 2.0 <= b as real
  {
  }

  lemma SameElement(s: seq<int>, xs: seq<int>, p: int) returns (i: int)
    requires multiset(s) == multiset(xs) && 0 <= p < |s|
    ensures 0 <= i < |xs| && xs[i] == s[p]
  {
    assert s[p] in multiset(xs);
    i :| 0 <= i < |xs| && xs[i] == s[p];
  }

  // ---------------------------------------------------------------- groupBy

  /** One key of a `groupBy` result, with the items under it. */
  datatype Bucket<K, T> = Bucket(key: K, items: seq<T>)

  /** `(acc[k] = acc[k] || []).push(x)`. */
  function AddTo<K(==), T>(bs: seq<Bucket<K, T>>, k: K, x: T): (r: seq<Bucket<K, T>>)
    ensures |r| == |bs| || |r| == |bs| + 1
  {
    if |bs| == 0 then [Bucket(k, [x])]
    else if bs[0].key == k then [Bucket(k, bs[0].items + [x])] + bs[1..]
    else [bs[0]] + AddTo(bs[1..], k, x)
  }

  /** `stats.groupBy(xs, key)`. */
  function GroupBy<K(==), T>(xs: seq<T>, key: T -> K): seq<Bucket<K, T>>
    decreases |xs|
  {
    if |xs| == 0 then [] else AddTo(GroupBy(xs[..|xs| - 1], key), key(xs[|xs| - 1]), xs[|xs| - 1])
  }

  function ItemsOf<K(==), T>(bs: seq<Bucket<K, T>>, k: K): Option<seq<T>> {
    if |bs| == 0 then None
    else if bs[0].key == k then Some(bs[0].items)
    else ItemsOf(bs[1..], k)
  }

  predicate DistinctBuckets<K(==), T>(bs: seq<Bucket<K, T>>) {
    forall i, j :: 0 <= i < j < |bs| ==> bs[i].key != bs[j].key
  }

  predicate HasBucket<K(==), T>(bs: seq<Bucket<K, T>>, k: K) {
    exists i :: 0 <= i < |bs| && bs[i].key == k
  }

  /** The items of `xs` whose key is `k`, in their order. */
  function WithKey<K(==), T>(xs: seq<T>, key: T -> K, k: K): seq<T>
    decreases |xs|
  {
    if |xs| == 0 then []
    else WithKey(xs[..|xs| - 1], key, k) + (if key(xs[|xs| - 1]) == k then [xs[|xs| - 1]] else [])
  }

  predicate KeyOccurs<K(==), T>(xs: seq<T>, key: T -> K, k: K) {
    exists i :: 0 <= i < |xs| && key(xs[i]) == k
  }

  function TotalItems<K, T>(bs: seq<Bucket<K, T>>): nat
    decreases |bs|
  {
    if |bs| == 0 then 0 else |bs[0].items| + TotalItems(bs[1..])
  }

  lemma {:induction false} AddToItems<K, T>(bs: seq<Bucket<K, T>>, k: K, x: T, k': K)
    ensures ItemsOf(AddTo(bs, k, x), k') ==
      if k' == k then Some(ItemsOf(bs, k).GetOr([]) + [x]) else ItemsOf(bs, k')
    decreases |bs|
  {
    var r := AddTo(bs, k, x);
    if |bs| == 0 {
      assert r[1..] == [];
      assert ItemsOf(bs, k).GetOr([]) + [x] == [x];
    } else if bs[0].key != k {
      AddToItems(bs[1..], k, x, k');
      assert r[1..] == AddTo(bs[1..], k, x);
    } else {
      assert r[1..] == bs[1..];
    }
  }

  lemma {:induction false} AddToKeys<K, T>(bs: seq<Bucket<K, T>>, k: K, x: T, k': K)
    ensures HasBucket(AddTo(bs, k, x), k') <==> k' == k || HasBucket(bs, k')
    decreases |bs|
  {
    var r := AddTo(bs, k, x);
    if |bs| > 0 && bs[0].key != k {
      AddToKeys(bs[1..], k, x, k');
      var t := AddTo(bs[1..], k, x);
      assert r == [bs[0]] + t;
      HasBucketCons(bs[0], t, k');
      assert bs == [bs[0]] + bs[1..];
      HasBucketCons(bs[0], bs[1..], k');
    } else if |bs| > 0 {
      assert |r| == |bs|;
      assert forall i :: 0 <= i < |r| ==> r[i].key == bs[i].key;
      if k' == k {
        assert bs[0].key == k';
      }
    } else {
      assert r == [Bucket(k, [x])];
      assert r[0].key == k;
    }
  }

  lemma HasBucketCons<K, T>(b: Bucket<K, T>, t: seq<Bucket<K, T>>, k': K)
    ensures HasBucket([b] + t, k') <==> b.key == k' || HasBucket(t, k')
  {
    var r := [b] + t;
    if HasBucket(r, k') {
      var i :| 0 <= i < |r| && r[i].key == k';
      if i > 0 {
        assert t[i - 1].key == k';
      }
    }
    if HasBucket(t, k') {
      var i :| 0 <= i < |t| && t[i].key == k';
      assert r[i + 1].key == k';
    }
    if b.key == k' {
      assert r[0].key == k';
    }
  }

  lemma {:induction false} AddToDistinct<K, T>(bs: seq<Bucket<K, T>>, k: K, x: T)
    requires DistinctBuckets(bs)
    ensures DistinctBuckets(AddTo(bs, k, x))
    decreases |bs|
  {
    if |bs| > 0 && bs[0].key != k {
      AddToDistinct(bs[1..], k, x);
      var r := AddTo(bs, k, x);
      var t := AddTo(bs[1..], k, x);
      forall j | 0 < j < |r| ensures r[0].key != r[j].key {
        AddToKeys(bs[1..], k, x, r[j].key);
        assert t[j - 1].key == r[j].key;
        if r[j].key != k {
          assert HasBucket(t, r[j].key);
          var i :| 0 <= i < |bs[1..]| && bs[1..][i].key == r[j].key;
          assert bs[i + 1].key == r[j].key;
        }
      }
    }
  }

  lemma {:induction false} AddToTotal<K, T>(bs: seq<Bucket<K, T>>, k: K, x: T)
    ensures TotalItems(AddTo(bs, k, x)) == TotalItems(bs) + 1
    decreases |bs|
  {
    var r := AddTo(bs, k, x);
    if |bs| == 0 {
      assert r[1..] == [];
    } else if bs[0].key == k {
      assert r[1..] == bs[1..];
    } else {
      AddToTotal(bs[1..], k, x);
      assert r[1..] == AddTo(bs[1..], k, x);
    }
  }

  lemma {:induction false} WithKeyAbsent<K, T>(xs: seq<T>, key: T -> K, k: K)
    requires !KeyOccurs(xs, key, k)
    ensures WithKey(xs, key, k) == []
    decreases |xs|
  {
    if |xs| > 0 {
      var init := xs[..|xs| - 1];
      assert !KeyOccurs(init, key, k) by {
        forall i | 0 <= i < |init| ensures key(init[i]) != k {
          assert init[i] == xs[i];
        }
      }
      assert key(xs[|xs| - 1]) != k;
      WithKeyAbsent(init, key, k);
    }
  }

  /**
   * `groupBy` partitions the items: each key that occurs has one group, holding
   * exactly the items with that key in their original order; no other key has one.
   */
  lemma {:induction false} GroupByCorrect<K, T>(xs: seq<T>, key: T -> K, k: K)
    ensures DistinctBuckets(GroupBy(xs, key))
    ensures ItemsOf(GroupBy(xs, key), k) == if KeyOccurs(xs, key, k) then Some(WithKey(xs, key, k)) else None
    decreases |xs|
  {
    if |xs| > 0 {
      var init := xs[..|xs| - 1];
      var x := xs[|xs| - 1];
      GroupByCorrect(init, key, k);
      assert GroupBy(xs, key) == AddTo(GroupBy(init, key), key(x), x);
      AddToDistinct(GroupBy(init, key), key(x), x);
      AddToItems(GroupBy(init, key), key(x), x, k);
      if KeyOccurs(init, key, k) {
        var i :| 0 <= i < |init| && key(init[i]) == k;
        assert key(xs[i]) == k;
      }
      if KeyOccurs(xs, key, k) && key(x) != k {
        var i :| 0 <= i < |xs| && key(xs[i]) == k;
        assert key(init[i]) == k;
      }
      if key(x) == k {
        assert WithKey(xs, key, k) == WithKey(init, key, k) + [x];
        assert KeyOccurs(xs, key, k) by { assert key(xs[|xs| - 1]) == k; }
        if !KeyOccurs(init, key, k) {
          WithKeyAbsent(init, key, k);
          assert ItemsOf(GroupBy(init, key), k).GetOr([]) + [x] == [x];
          assert WithKey(xs, key, k) == [x];
        } else {
          assert ItemsOf(GroupBy(init, key), k) == Some(WithKey(init, key, k));
          assert ItemsOf(GroupBy(xs, key), k) == Some(WithKey(init, key, k) + [x]);
        }
      } else {
        assert WithKey(xs, key, k) == WithKey(init, key, k) + [];
        assert WithKey(init, key, k) + [] == WithKey(init, key, k);
      }
    }
  }

  /** No item is lost or duplicated: the groups together hold as many items as the input. */
  lemma {:induction false} GroupBySizes<K, T>(xs: seq<T>, key: T -> K)
    ensures TotalItems(GroupBy(xs, key)) == |xs|
    decreases |xs|
  {
    if |xs| > 0 {
      GroupBySizes(xs[..|xs| - 1], key);
      AddToTotal(GroupBy(xs[..|xs| - 1], key), key(xs[|xs| - 1]), xs[|xs| - 1]);
    }
  }

  // ---------------------------------------------------------------- countBy

  /** One contribution of 1 per item, under the item's key. */
  function Ones<K, T>(xs: seq<T>, key: T -> K): (cs: seq<Contrib<K>>)
    ensures |cs| == |xs|
    ensures forall i :: 0 <= i < |xs| ==> cs[i] == Contrib(key(xs[i]), 1.0)
  {
    seq(|xs|, i requires 0 <= i < |xs| => Contrib(key(xs[i]), 1.0))
  }

  /** `stats.countBy(xs, key)`: `acc[k] = (acc[k] || 0) + 1`. */
  function CountBy<K(==), T>(xs: seq<T>, key: T -> K): seq<Entry<K>> {
    Group(Ones(xs, key))
  }

  lemma {:induction false} CountIsSize<K, T>(xs: seq<T>, key: T -> K, k: K)
    ensures SumFor(Ones(xs, key), k) == |WithKey(xs, key, k)| as real
    ensures AmountSum(Ones(xs, key)) == |xs| as real
    decreases |xs|
  {
    if |xs| > 0 {
      var init := xs[..|xs| - 1];
      CountIsSize(init, key, k);
      assert Ones(xs, key)[..|xs| - 1] == Ones(init, key);
    }
  }

  lemma {:induction false} OnesKeys<K, T>(xs: seq<T>, key: T -> K, k: K)
    ensures Contributes(Ones(xs, key), k) <==> KeyOccurs(xs, key, k)
  {
    var cs := Ones(xs, key);
    if Contributes(cs, k) {
      var i :| 0 <= i < |cs| && cs[i].key == k;
      assert key(xs[i]) == k;
    }
    if KeyOccurs(xs, key, k) {
      var i :| 0 <= i < |xs| && key(xs[i]) == k;
      assert cs[i].key == k;
    }
  }

  /** Each key that occurs is counted once per item with it; the counts add up to the number of items. */
  lemma CountByCorrect<K, T>(xs: seq<T>, key: T -> K, k: K)
    ensures DistinctKeys(CountBy(xs, key))
    ensures Lookup(CountBy(xs, key), k) ==
      if KeyOccurs(xs, key, k) then Some(|WithKey(xs, key, k)| as real) else None
    ensures TotalSum(CountBy(xs, key)) == |xs| as real
  {
    GroupCorrect(Ones(xs, key), k);
    GroupTotal(Ones(xs, key));
    CountIsSize(xs, key, k);
    OnesKeys(xs, key, k);
  }

  // ---------------------------------------------------------------- getTopN

  /** The comparator `([, a], [, b]) => b - a`: larger counts first. */
  function CountGe<K>(a: Entry<K>, b: Entry<K>): bool { a.total >= b.total }

  /** `stats.getTopN(countMap, n)`. */
  function TopN<K>(es: seq<Entry<K>>, n: nat): seq<Entry<K>> {
    var sorted := Sort(es, CountGe);
    if n < |sorted| then sorted[..n] else sorted
  }

  /**
   * At most n entries, taken from the input, in non-increasing count order;
   * every entry left out has a count no larger than any entry kept.
   */
  lemma TopNSpec<K(!new)>(es: seq<Entry<K>>, n: nat)
    ensures |TopN(es, n)| == if n < |es| then n else |es|
    ensures SortedBy(TopN(es, n), CountGe)
    ensures multiset(TopN(es, n)) <= multiset(es)
    ensures forall e, j :: (e in multiset(es) - multiset(TopN(es, n)) && 0 <= j < |TopN(es, n)|
      ==> TopN(es, n)[j].total >= e.total)
  {
    var s := Sort(es, CountGe);
    assert TotalPreorder(CountGe<K>);
    SortSorted(es, CountGe);
    var k := if n < |s| then n else |s|;
    PrefixTop(s, es, k);
    assert TopN(es, n) == s[..k];
  }

  /** A prefix of a sorted permutation of `es` is sorted, is part of `es` and dominates the rest of `es`. */
  lemma PrefixTop<K>(s: seq<Entry<K>>, es: seq<Entry<K>>, k: nat)
    requires k <= |s| && SortedBy(s, CountGe) && multiset(s) == multiset(es)
    ensures |s[..k]| == k
    ensures SortedBy(s[..k], CountGe)
    ensures multiset(s[..k]) <= multiset(es)
    ensures forall e, j :: (e in multiset(es) - multiset(s[..k]) && 0 <= j < |s[..k]|
      ==> s[..k][j].total >= e.total)
  {
    PrefixSplit(s, k);
    PrefixSortedBy(s, k, CountGe);
    PrefixRest(s, es, k);
  }

  lemma PrefixSortedBy<T>(s: seq<T>, k: nat, le: (T, T) -> bool)
    requires k <= |s| && SortedBy(s, le)
    ensures SortedBy(s[..k], le)
  {
    var t := s[..k];
    forall x, y | 0 <= x < y < |t| ensures le(t[x], t[y]) {
      assert le(s[x], s[y]);
    }
  }

  lemma PrefixRest<K>(s: seq<Entry<K>>, es: seq<Entry<K>>, k: nat)
    requires k <= |s| && SortedBy(s, CountGe) && multiset(s) == multiset(es)
    requires multiset(s) - multiset(s[..k]) == multiset(s[k..])
    ensures forall e, j :: (e in multiset(es) - multiset(s[..k]) && 0 <= j < |s[..k]|
      ==> s[..k][j].total >= e.total)
  {
    var t := s[..k];
    PrefixDominates(s, k, CountGe);
    forall e, j | e in multiset(es) - multiset(t) && 0 <= j < |t| ensures t[j].total >= e.total {
      assert e in multiset(s[k..]);
      assert CountGe(s[j], e);
    }
  }

  lemma PrefixSplit<T>(s: seq<T>, k: nat)
    requires k <= |s|
    ensures multiset(s) - multiset(s[..k]) == multiset(s[k..])
    ensures multiset(s[..k]) <= multiset(s)
  {
    assert s == s[..k] + s[k..];
  }

  lemma PrefixDominates<T>(s: seq<T>, k: nat, le: (T, T) -> bool)
    requires k <= |s| && SortedBy(s, le)
    ensures forall e, j :: e in multiset(s[k..]) && 0 <= j < k ==> le(s[j], e)
  {
    forall e, j | e in multiset(s[k..]) && 0 <= j < k ensures le(s[j], e) {
      var i :| 0 <= i < |s[k..]| && s[k..][i] == e;
      assert s[k + i] == e;
    }
  }
}
