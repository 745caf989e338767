/**
 * `Array.prototype.sort` with a comparator. The application always passes a
 * comparator that induces a total preorder (`le(a, b)` stands for
 * "comparator(a, b) <= 0"); for such comparators the ECMAScript sort is
 * the stable sort, modelled here as insertion sort.
 */
module Sorting {

  ghost predicate TotalPreorder<T(!new)>(le: (T, T) -> bool) {
    && (forall a, b :: le(a, b) || le(b, a))
    && (forall a, b, c :: le(a, b) && le(b, c) ==> le(a, c))
  }

  predicate SortedBy<T>(s: seq<T>, le: (T, T) -> bool) {
    forall i, j :: 0 <= i < j < |s| ==> le(s[i], s[j])
  }

  /** Inserts `x` after every element that is not greater than it (keeps ties in input order). */
  function Insert<T>(x: T, s: seq<T>, le: (T, T) -> bool): (r: seq<T>)
    ensures multiset(r) == multiset(s) + multiset{x}
    ensures |r| == |s| + 1
  {
    if |s| == 0 then [x]
    else if le(s[0], x) then
      assert s == [s[0]] + s[1..];
      [s[0]] + Insert(x, s[1..], le)
    else [x] + s
  }

  /** The stable sort of `s` by `le`. */
  function Sort<T>(s: seq<T>, le: (T, T) -> bool): (r: seq<T>)
    ensures multiset(r) == multiset(s)
    ensures |r| == |s|
    decreases |s|
  {
    if |s| == 0 then []
    else
      assert s == s[..|s| - 1] + [s[|s| - 1]];
      Insert(s[|s| - 1], Sort(s[..|s| - 1], le), le)
  }

  lemma {:induction false} InsertSorted<T(!new)>(x: T, s: seq<T>, le: (T, T) -> bool)
    requires TotalPreorder(le)
    requires SortedBy(s, le)
    ensures SortedBy(Insert(x, s, le), le)
    decreases |s|
  {
    if |s| > 0 && le(s[0], x) {
      InsertSorted(x, s[1..], le);
      var r := Insert(x, s[1..], le);
      forall k | 0 <= k < |r| ensures le(s[0], r[k]) {
        assert r[k] in multiset(r);
        assert r[k] in multiset(s[1..]) + multiset{x};
        if r[k] != x {
          assert r[k] in s[1..];
        }
      }
    }
  }

  /** The sort is ordered and a permutation of its input. */
  lemma {:induction false} SortSorted<T(!new)>(s: seq<T>, le: (T, T) -> bool)
    requires TotalPreorder(le)
    ensures SortedBy(Sort(s, le), le)
    ensures multiset(Sort(s, le)) == multiset(s)
    decreases |s|
  {
    if |s| > 0 {
      SortSorted(s[..|s| - 1], le);
      InsertSorted(s[|s| - 1], Sort(s[..|s| - 1], le), le);
    }
  }

  ghost predicate Antisymmetric<T(!new)>(le: (T, T) -> bool) {
    forall a, b :: le(a, b) && le(b, a) ==> a == b
  }

  /** For an order without ties between distinct values, the sorted arrangement of a multiset is unique. */
  lemma {:induction false} SortedUnique<T(!new)>(a: seq<T>, b: seq<T>, le: (T, T) -> bool)
    requires Antisymmetric(le)
    requires SortedBy(a, le) && SortedBy(b, le) && multiset(a) == multiset(b)
    ensures a == b
    decreases |a|
  {
    assert |a| == |multiset(a)| == |multiset(b)| == |b|;
    if |a| > 0 {
      SortedHeads(a, b, le);
      TailMultiset(a, b);
      SortedTail(a, le);
      SortedTail(b, le);
      SortedUnique(a[1..], b[1..], le);
      assert a == [a[0]] + a[1..];
      assert b == [b[0]] + b[1..];
    }
  }

  lemma SortedHeads<T(!new)>(a: seq<T>, b: seq<T>, le: (T, T) -> bool)
    requires Antisymmetric(le)
    requires SortedBy(a, le) && SortedBy(b, le) && multiset(a) == multiset(b) && |a| > 0
    ensures |b| > 0 && a[0] == b[0]
  {
    assert a[0] in multiset(b);
    var i :| 0 <= i < |b| && b[i] == a[0];
    assert b[0] in multiset(a);
    var j :| 0 <= j < |a| && a[j] == b[0];
    if i > 0 && j > 0 {
      assert le(b[0], b[i]);
      assert le(a[0], a[j]);
    }
  }

  lemma TailMultiset<T>(a: seq<T>, b: seq<T>)
    requires |a| > 0 && |b| > 0 && a[0] == b[0] && multiset(a) == multiset(b)
    ensures multiset(a[1..]) == multiset(b[1..])
  {
    assert a == [a[0]] + a[1..];
    assert b == [b[0]] + b[1..];
    assert multiset(a) == multiset([a[0]]) + multiset(a[1..]);
    assert multiset(b) == multiset([b[0]]) + multiset(b[1..]);
    assert multiset(a[1..]) == multiset(a) - multiset([a[0]]);
    assert multiset(b[1..]) == multiset(b) - multiset([b[0]]);
  }

  lemma SortedTail<T>(s: seq<T>, le: (T, T) -> bool)
    requires |s| > 0 && SortedBy(s, le)
    ensures SortedBy(s[1..], le)
  {
    forall x, y | 0 <= x < y < |s| - 1 ensures le(s[1..][x], s[1..][y]) {
      assert le(s[x + 1], s[y + 1]);
    }
  }

  /** Sorting an already sorted sequence with such an order changes nothing. */
  lemma SortOfSorted<T(!new)>(s: seq<T>, le: (T, T) -> bool)
    requires TotalPreorder(le) && Antisymmetric(le) && SortedBy(s, le)
    ensures Sort(s, le) == s
  {
    SortSorted(s, le);
    SortedUnique(Sort(s, le), s, le);
  }

  // ---------------------------------------------------------------- stability

  /** `[a]` when `a` ties with `x` under `le`, otherwise empty. */
  function Tie<T>(a: T, x: T, le: (T, T) -> bool): (r: seq<T>)
    ensures r == [a] || r == []
  {
    if le(a, x) && le(x, a) then [a] else []
  }

  /** The elements of `s` that tie with `x` under `le`, in their order in `s`. */
  function Ties<T>(s: seq<T>, x: T, le: (T, T) -> bool): (r: seq<T>)
    ensures |r| <= |s|
    decreases |s|
  {
    if |s| == 0 then []
    else Tie(s[0], x, le) + Ties(s[1..], x, le)
  }

  lemma {:induction false} TiesAppend<T>(a: seq<T>, b: seq<T>, x: T, le: (T, T) -> bool)
    ensures Ties(a + b, x, le) == Ties(a, x, le) + Ties(b, x, le)
    decreases |a|
  {
    if |a| == 0 {
      assert a + b == b;
    } else {
      assert (a + b)[0] == a[0];
      assert (a + b)[1..] == a[1..] + b;
      TiesAppend(a[1..], b, x, le);
    }
  }

  lemma {:induction false} TiesNone<T>(s: seq<T>, x: T, le: (T, T) -> bool)
    requires forall i :: 0 <= i < |s| ==> !(le(s[i], x) && le(x, s[i]))
    ensures Ties(s, x, le) == []
    decreases |s|
  {
    if |s| > 0 {
      TiesNone(s[1..], x, le);
    }
  }

  /** In a sorted sequence whose head is greater than `y`, nothing ties with `y`. */
  lemma NoTiesAfter<T(!new)>(y: T, s: seq<T>, x: T, le: (T, T) -> bool)
    requires TotalPreorder(le)
    requires SortedBy(s, le) && |s| > 0 && !le(s[0], y)
    requires le(y, x) && le(x, y)
    ensures forall i :: 0 <= i < |s| ==> !(le(s[i], x) && le(x, s[i]))
  {
    forall i | 0 <= i < |s| ensures !(le(s[i], x) && le(x, s[i])) {
      assert le(s[0], s[i]);
    }
  }

  lemma TiesCons<T>(h: T, t: seq<T>, x: T, le: (T, T) -> bool)
    ensures Ties([h] + t, x, le) == Tie(h, x, le) + Ties(t, x, le)
  {
    assert ([h] + t)[1..] == t;
  }

  lemma AppendAssoc<T>(a: seq<T>, b: seq<T>, c: seq<T>)
    ensures a + (b + c) == (a + b) + c
  {
  }

  lemma InsertBehind<T>(y: T, s: seq<T>, le: (T, T) -> bool)
    requires |s| > 0 && le(s[0], y)
    ensures Insert(y, s, le) == [s[0]] + Insert(y, s[1..], le)
  {
  }

  /** Inserting `y` behind the head of `s`, given the ties of the insertion into the tail. */
  lemma InsertTiesBehind<T>(y: T, s: seq<T>, x: T, le: (T, T) -> bool)
    requires |s| > 0 && le(s[0], y)
    requires Ties(Insert(y, s[1..], le), x, le)
          == Ties(s[1..], x, le) + Tie(y, x, le)
    ensures Ties(Insert(y, s, le), x, le)
         == Ties(s, x, le) + Tie(y, x, le)
  {
    var r := Insert(y, s[1..], le);
    var h, e := Tie(s[0], x, le), Tie(y, x, le);
    calc {
      Ties(Insert(y, s, le), x, le);
      { InsertBehind(y, s, le); }
      Ties([s[0]] + r, x, le);
      { TiesCons(s[0], r, x, le); }
      h + Ties(r, x, le);
      h + (Ties(s[1..], x, le) + e);
      { AppendAssoc(h, Ties(s[1..], x, le), e); }
      (h + Ties(s[1..], x, le)) + e;
      Ties(s, x, le) + e;
    }
  }

  /** Inserting `y` in front of a sorted `s` whose head is greater than `y`. */
  lemma InsertTiesFront<T(!new)>(y: T, s: seq<T>, x: T, le: (T, T) -> bool)
    requires TotalPreorder(le)
    requires SortedBy(s, le) && |s| > 0 && !le(s[0], y)
    ensures Ties([y] + s, x, le) == Ties(s, x, le) + Tie(y, x, le)
  {
    assert ([y] + s)[1..] == s;
    if le(y, x) && le(x, y) {
      NoTiesAfter(y, s, x, le);
      TiesNone(s, x, le);
    }
  }

  /** Inserting `y` adds it at the end of its tie class and moves no other tied element. */
  lemma {:induction false} InsertTies<T(!new)>(y: T, s: seq<T>, x: T, le: (T, T) -> bool)
    requires TotalPreorder(le)
    requires SortedBy(s, le)
    ensures Ties(Insert(y, s, le), x, le)
         == Ties(s, x, le) + Tie(y, x, le)
    decreases |s|
  {
    if |s| == 0 {
      assert Insert(y, s, le) == [y];
      assert [y][1..] == [];
    } else if le(s[0], y) {
      SortedTail(s, le);
      InsertTies(y, s[1..], x, le);
      InsertTiesBehind(y, s, x, le);
    } else {
      assert Insert(y, s, le) == [y] + s;
      InsertTiesFront(y, s, x, le);
    }
  }

  lemma TiesSnoc<T>(init: seq<T>, last: T, x: T, le: (T, T) -> bool)
    ensures Ties(init + [last], x, le)
         == Ties(init, x, le) + Tie(last, x, le)
  {
    TiesAppend(init, [last], x, le);
    assert [last][1..] == [];
  }

  lemma SortLast<T>(s: seq<T>, le: (T, T) -> bool)
    requires |s| > 0
    ensures Sort(s, le) == Insert(s[|s| - 1], Sort(s[..|s| - 1], le), le)
  {
  }

  /** The sort is stable: within every tie class, elements keep their input order. */
  lemma {:induction false} SortStable<T(!new)>(s: seq<T>, x: T, le: (T, T) -> bool)
    requires TotalPreorder(le)
    ensures Ties(Sort(s, le), x, le) == Ties(s, x, le)
    decreases |s|
  {
    if |s| > 0 {
      var init, last := s[..|s| - 1], s[|s| - 1];
      calc {
        Ties(Sort(s, le), x, le);
        { SortLast(s, le); }
        Ties(Insert(last, Sort(init, le), le), x, le);
        { SortSorted(init, le); InsertTies(last, Sort(init, le), x, le); }
        Ties(Sort(init, le), x, le) + Tie(last, x, le);
        { SortStable(init, x, le); }
        Ties(init, x, le) + Tie(last, x, le);
        { TiesSnoc(init, last, x, le); }
        Ties(init + [last], x, le);
        { assert s == init + [last]; }
        Ties(s, x, le);
      }
    }
  }
}
