/**
 * Accumulating amounts per key in a plain JavaScript object
 * (`acc[k] = (acc[k] || 0) + v`) and reading it back with `Object.keys`:
 * one entry per key, in the order the keys first appeared.
 */
module GroupSum {
  import opened Wrappers

  datatype Contrib<K> = Contrib(key: K, amount: real)

  datatype Entry<K> = Entry(key: K, total: real)

  /** The entry for `k`, if any. */
  function Lookup<K(==)>(es: seq<Entry<K>>, k: K): Option<real> {
    if |es| == 0 then None
    else if es[0].key == k then Some(es[0].total)
    else Lookup(es[1..], k)
  }

  predicate DistinctKeys<K(==)>(es: seq<Entry<K>>) {
    forall i, j :: 0 <= i < j < |es| ==> es[i].key != es[j].key
  }

  /** `acc[c.key] = (acc[c.key] || 0) + c.amount`. */
  function Upsert<K(==)>(es: seq<Entry<K>>, c: Contrib<K>): (r: seq<Entry<K>>)
    ensures |r| == |es| || |r| == |es| + 1
  {
    if |es| == 0 then [Entry(c.key, c.amount)]
    else if es[0].key == c.key then [Entry(c.key, es[0].total + c.amount)] + es[1..]
    else [es[0]] + Upsert(es[1..], c)
  }

  /** The entries after visiting every contribution in order. */
  function Group<K(==)>(cs: seq<Contrib<K>>): seq<Entry<K>>
    decreases |cs|
  {
    if |cs| == 0 then [] else Upsert(Group(cs[..|cs| - 1]), cs[|cs| - 1])
  }

  /** Σ of the amounts contributed under `k`. */
  function SumFor<K(==)>(cs: seq<Contrib<K>>, k: K): real
    decreases |cs|
  {
    if |cs| == 0 then 0.0
    else SumFor(cs[..|cs| - 1], k) + (if cs[|cs| - 1].key == k then cs[|cs| - 1].amount else 0.0)
  }

  predicate Contributes<K(==)>(cs: seq<Contrib<K>>, k: K) {
    exists i :: 0 <= i < |cs| && cs[i].key == k
  }

  function AmountSum<K>(cs: seq<Contrib<K>>): real
    decreases |cs|
  {
    if |cs| == 0 then 0.0 else AmountSum(cs[..|cs| - 1]) + cs[|cs| - 1].amount
  }

  function TotalSum<K>(es: seq<Entry<K>>): real
    decreases |es|
  {
    if |es| == 0 then 0.0 else es[0].total + TotalSum(es[1..])
  }

  lemma {:induction false} UpsertLookup<K>(es: seq<Entry<K>>, c: Contrib<K>, k: K)
    ensures Lookup(Upsert(es, c), k) ==
      if k == c.key then Some(Lookup(es, k).GetOr(0.0) + c.amount) else Lookup(es, k)
    decreases |es|
  {
    if |es| > 0 && es[0].key != c.key {
      UpsertLookup(es[1..], c, k);
    }
  }

  predicate HasKey<K(==)>(es: seq<Entry<K>>, k: K) {
    exists i :: 0 <= i < |es| && es[i].key == k
  }

  lemma {:induction false} UpsertKeys<K>(es: seq<Entry<K>>, c: Contrib<K>, k: K)
    ensures HasKey(Upsert(es, c), k) <==> k == c.key || HasKey(es, k)
    decreases |es|
  {
    var r := Upsert(es, c);
    if |es| > 0 && es[0].key != c.key {
      UpsertKeys(es[1..], c, k);
      if HasKey(es, k) {
        var i :| 0 <= i < |es| && es[i].key == k;
        if i > 0 {
          assert es[1..][i - 1].key == k;
        } else {
          assert r[0].key == k;
        }
      }
      if HasKey(r, k) {
        var i :| 0 <= i < |r| && r[i].key == k;
        if i > 0 {
          assert Upsert(es[1..], c)[i - 1].key == k;
        } else {
          assert es[0].key == k;
        }
      }
      if HasKey(Upsert(es[1..], c), k) {
        var t := Upsert(es[1..], c);
        var i :| 0 <= i < |t| && t[i].key == k;
        assert r[i + 1].key == k;
      }
      if HasKey(es[1..], k) {
        var i :| 0 <= i < |es[1..]| && es[1..][i].key == k;
        assert es[i + 1].key == k;
      }
    } else if |es| > 0 {
      assert |r| == |es|;
      assert forall i :: 0 <= i < |r| ==> r[i].key == es[i].key;
      if k == c.key {
        assert es[0].key == k;
      }
    } else {
      assert r == [Entry(c.key, c.amount)];
      assert r[0].key == c.key;
    }
  }

  lemma {:induction false} UpsertDistinct<K>(es: seq<Entry<K>>, c: Contrib<K>)
    requires DistinctKeys(es)
    ensures DistinctKeys(Upsert(es, c))
    decreases |es|
  {
    if |es| > 0 && es[0].key != c.key {
      UpsertDistinct(es[1..], c);
      var r := Upsert(es, c);
      forall j | 0 < j < |r| ensures r[0].key != r[j].key {
        UpsertKeys(es[1..], c, r[j].key);
        assert Upsert(es[1..], c)[j - 1].key == r[j].key;
        if r[j].key != c.key {
          assert HasKey(Upsert(es[1..], c), r[j].key);
          var i :| 0 <= i < |es[1..]| && es[1..][i].key == r[j].key;
          assert es[i + 1].key == r[j].key;
        }
      }
    }
  }

  lemma {:induction false} UpsertTotal<K>(es: seq<Entry<K>>, c: Contrib<K>)
    ensures TotalSum(Upsert(es, c)) == TotalSum(es) + c.amount
    decreases |es|
  {
    if |es| == 0 {
      assert TotalSum([Entry(c.key, c.amount)]) == c.amount + TotalSum<K>([]);
    } else if es[0].key == c.key {
      var r := Upsert(es, c);
      assert r[1..] == es[1..];
    } else {
      UpsertTotal(es[1..], c);
      var r := Upsert(es, c);
      assert r[1..] == Upsert(es[1..], c);
    }
  }

  /**
   * Every key that received a contribution has exactly one entry, holding the
   * sum of what it received; no other key has an entry.
   */
  lemma {:induction false} GroupCorrect<K>(cs: seq<Contrib<K>>, k: K)
    ensures DistinctKeys(Group(cs))
    ensures Lookup(Group(cs), k) == if Contributes(cs, k) then Some(SumFor(cs, k)) else None
    decreases |cs|
  {
    if |cs| > 0 {
      var init := cs[..|cs| - 1];
      var c := cs[|cs| - 1];
      GroupCorrect(init, k);
      UpsertDistinct(Group(init), c);
      UpsertLookup(Group(init), c, k);
      if Contributes(init, k) {
        var i :| 0 <= i < |init| && init[i].key == k;
        assert cs[i].key == k;
      }
      if Contributes(cs, k) && c.key != k {
        var i :| 0 <= i < |cs| && cs[i].key == k;
        assert init[i].key == k;
      }
      if k == c.key {
        assert Contributes(cs, k) by { assert cs[|cs| - 1].key == k; }
        if !Contributes(init, k) {
          SumForAbsent(init, k);
        }
      }
    }
  }

  lemma {:induction false} SumForAbsent<K>(cs: seq<Contrib<K>>, k: K)
    requires !Contributes(cs, k)
    ensures SumFor(cs, k) == 0.0
    decreases |cs|
  {
    if |cs| > 0 {
      var init := cs[..|cs| - 1];
      assert !Contributes(init, k) by {
        forall i | 0 <= i < |init| ensures init[i].key != k {
          assert init[i] == cs[i];
        }
      }
      assert cs[|cs| - 1].key != k;
      SumForAbsent(init, k);
    }
  }

  /** Nothing is lost or double counted: the entry totals add up to the contributions. */
  lemma {:induction false} GroupTotal<K>(cs: seq<Contrib<K>>)
    ensures TotalSum(Group(cs)) == AmountSum(cs)
    decreases |cs|
  {
    if |cs| > 0 {
      GroupTotal(cs[..|cs| - 1]);
      UpsertTotal(Group(cs[..|cs| - 1]), cs[|cs| - 1]);
    }
  }

  lemma {:induction false} AmountSumAppend<K>(a: seq<Contrib<K>>, b: seq<Contrib<K>>)
    ensures AmountSum(a + b) == AmountSum(a) + AmountSum(b)
    decreases |b|
  {
    if |b| == 0 {
      assert a + b == a;
    } else {
      assert (a + b)[..|a + b| - 1] == a + b[..|b| - 1];
      AmountSumAppend(a, b[..|b| - 1]);
    }
  }
}
