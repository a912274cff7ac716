// Sequences of rows: filtering, stable sorting and distinctness; the reference for SQL `WHERE`
// and `ORDER BY` over rows kept in table order, and for `sortWith(compareBy { .. })`.

module Rows {

  /** The rows satisfying a `WHERE` condition, in table order. */
  function Where<T(!new)>(rows: seq<T>, keep: T -> bool): (r: seq<T>)
    ensures |r| <= |rows|
    ensures forall x :: x in r <==> x in rows && keep(x)
    ensures multiset(r) <= multiset(rows)
  {
    if rows == [] then []
    else
      var rest := Where(rows[1..], keep);
      assert rows == [rows[0]] + rows[1..];
      (if keep(rows[0]) then [rows[0]] else []) + rest
  }

  lemma {:induction false} WhereAll<T(!new)>(rows: seq<T>, keep: T -> bool)
    requires forall i | 0 <= i < |rows| :: keep(rows[i])
    ensures Where(rows, keep) == rows
  {
    if rows != [] {
      WhereAll(rows[1..], keep);
      assert rows == [rows[0]] + rows[1..];
    }
  }

  lemma {:induction false} WhereExt<T(!new)>(rows: seq<T>, p: T -> bool, q: T -> bool)
    requires forall x | x in rows :: p(x) == q(x)
    ensures Where(rows, p) == Where(rows, q)
  {
    if rows != [] {
      WhereExt(rows[1..], p, q);
    }
  }

  lemma {:induction false} WhereNone<T(!new)>(rows: seq<T>, keep: T -> bool)
    requires forall i | 0 <= i < |rows| :: !keep(rows[i])
    ensures Where(rows, keep) == []
  {
    if rows != [] {
      WhereNone(rows[1..], keep);
    }
  }

  /** A row appended at the end is kept, or not, at the end of the result. */
  lemma {:induction false} WhereSnoc<T(!new)>(rows: seq<T>, x: T, keep: T -> bool)
    ensures Where(rows + [x], keep) == Where(rows, keep) + (if keep(x) then [x] else [])
  {
    if rows == [] {
      assert [] + [x] == [x];
      assert [x][1..] == [];
    } else {
      assert (rows + [x])[1..] == rows[1..] + [x];
      WhereSnoc(rows[1..], x, keep);
    }
  }

  /** The conjunction of two conditions. */
  function Both<T>(p: T -> bool, q: T -> bool): T -> bool {
    (x: T) => p(x) && q(x)
  }

  lemma {:induction false} WhereWhere<T(!new)>(rows: seq<T>, p: T -> bool, q: T -> bool)
    ensures Where(Where(rows, p), q) == Where(rows, Both(p, q))
  {
    if rows != [] {
      WhereWhere(rows[1..], p, q);
      var w := Where(rows[1..], p);
      if p(rows[0]) {
        assert Where(rows, p) == [rows[0]] + w;
        assert ([rows[0]] + w)[1..] == w;
        assert Where([rows[0]] + w, q) == (if q(rows[0]) then [rows[0]] else []) + Where(w, q);
      } else {
        assert Where(rows, p) == w;
      }
    }
  }

  /** `le` is a total order on the keys. */
  ghost predicate TotalOrder<K(!new)>(le: (K, K) -> bool) {
    (forall a, b :: le(a, b) || le(b, a))
    && (forall a, b :: le(a, b) && le(b, a) ==> a == b)
    && (forall a, b, c :: le(a, b) && le(b, c) ==> le(a, c))
  }

  ghost predicate Sorted<T, K(!new)>(s: seq<T>, key: T -> K, le: (K, K) -> bool) {
    forall i, j | 0 <= i < j < |s| :: le(key(s[i]), key(s[j]))
  }

  /** The elements of `s` whose key is `k`, in the order of `s`. */
  ghost function KeyFilter<T, K>(s: seq<T>, key: T -> K, k: K): seq<T> {
    if s == [] then []
    else KeyFilter(s[..|s| - 1], key, k) + (if key(s[|s| - 1]) == k then [s[|s| - 1]] else [])
  }

  /** `x` put after every element of the sorted `t` whose key is not above its own. */
  function Insert<T, K>(t: seq<T>, x: T, key: T -> K, le: (K, K) -> bool): (r: seq<T>)
    ensures |r| == |t| + 1
  {
    if t == [] then [x]
    else if le(key(t[|t| - 1]), key(x)) then t + [x]
    else Insert(t[..|t| - 1], x, key, le) + [t[|t| - 1]]
  }

  /** Insertion sort, one element at a time from the front. */
  function Sort<T, K>(s: seq<T>, key: T -> K, le: (K, K) -> bool): (r: seq<T>)
    ensures |r| == |s|
  {
    if s == [] then [] else Insert(Sort(s[..|s| - 1], key, le), s[|s| - 1], key, le)
  }

  lemma {:induction false} KeyFilterAppend<T, K>(a: seq<T>, b: seq<T>, key: T -> K, k: K)
    ensures KeyFilter(a + b, key, k) == KeyFilter(a, key, k) + KeyFilter(b, key, k)
    decreases |b|
  {
    if b == [] {
      assert a + b == a;
    } else {
      var b' := b[..|b| - 1];
      assert (a + b)[..|a + b| - 1] == a + b';
      assert (a + b)[|a + b| - 1] == b[|b| - 1];
      KeyFilterAppend(a, b', key, k);
    }
  }

  lemma {:induction false} InsertMultiset<T, K>(t: seq<T>, x: T, key: T -> K, le: (K, K) -> bool)
    ensures multiset(Insert(t, x, key, le)) == multiset(t) + multiset{x}
    decreases |t|
  {
    if t != [] && !le(key(t[|t| - 1]), key(x)) {
      var t' := t[..|t| - 1];
      InsertMultiset(t', x, key, le);
      assert t == t' + [t[|t| - 1]];
    }
  }

  lemma {:induction false} InsertSorted<T, K(!new)>(t: seq<T>, x: T, key: T -> K, le: (K, K) -> bool)
    requires TotalOrder(le) && Sorted(t, key, le)
    ensures Sorted(Insert(t, x, key, le), key, le)
    decreases |t|
  {
    if t != [] {
      var last := t[|t| - 1];
      if !le(key(last), key(x)) {
        var t' := t[..|t| - 1];
        InsertSorted(t', x, key, le);
        InsertBelow(t', x, key, le, key(last));
      }
    }
  }

  /** An upper bound of `t` and of `x` bounds the result of inserting `x` into `t`. */
  lemma {:induction false} InsertBelow<T, K>(t: seq<T>, x: T, key: T -> K, le: (K, K) -> bool, b: K)
    requires forall i | 0 <= i < |t| :: le(key(t[i]), b)
    requires le(key(x), b)
    ensures forall i | 0 <= i < |t| + 1 :: le(key(Insert(t, x, key, le)[i]), b)
    decreases |t|
  {
    if t != [] && !le(key(t[|t| - 1]), key(x)) {
      InsertBelow(t[..|t| - 1], x, key, le, b);
    }
  }

  lemma {:induction false} InsertStable<T, K(!new)>(t: seq<T>, x: T, key: T -> K, le: (K, K) -> bool, k: K)
    requires TotalOrder(le)
    ensures KeyFilter(Insert(t, x, key, le), key, k) == KeyFilter(t, key, k) + KeyFilter([x], key, k)
    decreases |t|
  {
    if t == [] {
      assert [] + [x] == [x];
      assert KeyFilter([x], key, k) == KeyFilter([], key, k) + (if key(x) == k then [x] else []);
    } else {
      var last := t[|t| - 1];
      var t' := t[..|t| - 1];
      assert t == t' + [last];
      if le(key(last), key(x)) {
        KeyFilterAppend(t, [x], key, k);
      } else {
        InsertStable(t', x, key, le, k);
        KeyFilterAppend(Insert(t', x, key, le), [last], key, k);
        KeyFilterAppend(t', [last], key, k);
        KeyFilterOne(x, key, k);
        KeyFilterOne(last, key, k);
      }
    }
  }

  lemma KeyFilterOne<T, K>(x: T, key: T -> K, k: K)
    ensures KeyFilter([x], key, k) == if key(x) == k then [x] else []
  {
    assert [x][..0] == [];
  }

  /** The sort orders the keys. */
  lemma {:induction false} SortSorted<T, K(!new)>(s: seq<T>, key: T -> K, le: (K, K) -> bool)
    requires TotalOrder(le)
    ensures Sorted(Sort(s, key, le), key, le)
    decreases |s|
  {
    if s != [] {
      SortSorted(s[..|s| - 1], key, le);
      InsertSorted(Sort(s[..|s| - 1], key, le), s[|s| - 1], key, le);
    }
  }

  /** The sort rearranges the elements and neither adds nor drops any. */
  lemma {:induction false} SortPermutes<T, K>(s: seq<T>, key: T -> K, le: (K, K) -> bool)
    ensures multiset(Sort(s, key, le)) == multiset(s)
    decreases |s|
  {
    if s != [] {
      SortPermutes(s[..|s| - 1], key, le);
      InsertMultiset(Sort(s[..|s| - 1], key, le), s[|s| - 1], key, le);
      assert s == s[..|s| - 1] + [s[|s| - 1]];
    }
  }

  /** The sort is stable: elements with equal keys keep their relative order. */
  lemma {:induction false} SortStable<T, K(!new)>(s: seq<T>, key: T -> K, le: (K, K) -> bool, k: K)
    requires TotalOrder(le)
    ensures KeyFilter(Sort(s, key, le), key, k) == KeyFilter(s, key, k)
    decreases |s|
  {
    if s != [] {
      var s' := s[..|s| - 1];
      SortStable(s', key, le, k);
      InsertStable(Sort(s', key, le), s[|s| - 1], key, le, k);
      KeyFilterOne(s[|s| - 1], key, k);
    }
  }

  /** Sorting a sequence that is already sorted changes nothing. */
  lemma SortOfSorted<T, K(!new)>(s: seq<T>, key: T -> K, le: (K, K) -> bool)
    requires TotalOrder(le) && Sorted(s, key, le)
    ensures Sort(s, key, le) == s
    decreases |s|
  {
    if s != [] {
      var s' := s[..|s| - 1];
      SortOfSorted(s', key, le);
      assert Sort(s', key, le) == s';
      if |s'| > 0 {
        assert le(key(s'[|s'| - 1]), key(s[|s| - 1]));
      }
    }
  }

  /** An element kept by `KeyFilter` is an element of the sequence with that key. */
  lemma {:induction false} KeyFilterMember<T, K>(s: seq<T>, key: T -> K, k: K, x: T)
    requires x in KeyFilter(s, key, k)
    ensures x in s && key(x) == k
    decreases |s|
  {
    if s != [] {
      if x in KeyFilter(s[..|s| - 1], key, k) {
        KeyFilterMember(s[..|s| - 1], key, k, x);
      }
    }
  }

  /** The last element of a non-empty sequence is kept by the filter on its own key. */
  lemma KeyFilterLast<T, K>(s: seq<T>, key: T -> K)
    requires s != []
    ensures KeyFilter(s, key, key(s[|s| - 1])) != []
  {
  }

  /**
   * Two sorted sequences that hold, key by key, the same elements in the same order
   * are equal.
   */
  lemma {:induction false} SortedUnique<T, K(!new)>(u: seq<T>, v: seq<T>, key: T -> K, le: (K, K) -> bool)
    requires TotalOrder(le) && Sorted(u, key, le) && Sorted(v, key, le)
    requires forall k :: KeyFilter(u, key, k) == KeyFilter(v, key, k)
    ensures u == v
    decreases |u| + |v|
  {
    if u == [] && v != [] {
      KeyFilterLast(v, key);
    } else if u != [] && v == [] {
      KeyFilterLast(u, key);
    } else if u != [] {
      var u', x := u[..|u| - 1], u[|u| - 1];
      var v', y := v[..|v| - 1], v[|v| - 1];
      assert KeyFilter(u, key, key(x)) == KeyFilter(u', key, key(x)) + [x];
      assert KeyFilter(v, key, key(y)) == KeyFilter(v', key, key(y)) + [y];
      KeyFilterMember(v, key, key(x), x);
      KeyFilterMember(u, key, key(y), y);
      var i :| 0 <= i < |v| && v[i] == x;
      var j :| 0 <= j < |u| && u[j] == y;
      assert le(key(x), key(y)) by {
        if i < |v| - 1 { assert le(key(v[i]), key(v[|v| - 1])); }
      }
      assert le(key(y), key(x)) by {
        if j < |u| - 1 { assert le(key(u[j]), key(u[|u| - 1])); }
      }
      assert key(x) == key(y);
      assert x == y && KeyFilter(u', key, key(x)) == KeyFilter(v', key, key(x)) by {
        var a := KeyFilter(u', key, key(x)) + [x];
        var b := KeyFilter(v', key, key(y)) + [y];
        assert a == b;
        assert a[..|a| - 1] == KeyFilter(u', key, key(x)) && b[..|b| - 1] == KeyFilter(v', key, key(y));
      }
      forall k
        ensures KeyFilter(u', key, k) == KeyFilter(v', key, k)
      {
        if k != key(x) {
          assert KeyFilter(u, key, k) == KeyFilter(u', key, k);
          assert KeyFilter(v, key, k) == KeyFilter(v', key, k);
        }
      }
      SortedUnique(u', v', key, le);
    }
  }

  /**
   * The stable sort is the only sorted arrangement that keeps, key by key, the order
   * of the input: any such `t` is `Sort(s)`.
   */
  lemma SortIsUnique<T, K(!new)>(s: seq<T>, t: seq<T>, key: T -> K, le: (K, K) -> bool)
    requires TotalOrder(le) && Sorted(t, key, le)
    requires forall k :: KeyFilter(t, key, k) == KeyFilter(s, key, k)
    ensures t == Sort(s, key, le)
  {
    SortSorted(s, key, le);
    forall k
      ensures KeyFilter(t, key, k) == KeyFilter(Sort(s, key, le), key, k)
    {
      SortStable(s, key, le, k);
    }
    SortedUnique(t, Sort(s, key, le), key, le);
  }

  // ---------------------------------------------------------------------------
  // Distinct elements

  ghost predicate Distinct<T>(s: seq<T>) {
    forall i, j | 0 <= i < j < |s| :: s[i] != s[j]
  }

  ghost function SetOf<T>(s: seq<T>): set<T> {
    set i | 0 <= i < |s| :: s[i]
  }

  /** A sequence has at least as many elements as it has distinct values. */
  lemma {:induction false} SetOfSize<T>(s: seq<T>)
    ensures |SetOf(s)| <= |s|
    ensures Distinct(s) ==> |SetOf(s)| == |s|
  {
    if s != [] {
      var t := s[1..];
      SetOfSize(t);
      assert SetOf(s) == {s[0]} + SetOf(t) by {
        forall x | x in SetOf(s)
          ensures x in {s[0]} + SetOf(t)
        {
          var i :| 0 <= i < |s| && s[i] == x;
          if i > 0 {
            assert t[i - 1] == x;
          }
        }
      }
      if Distinct(s) {
        assert s[0] !in SetOf(t);
      }
    }
  }

  /** Conversely, as many distinct values as elements means no value repeats. */
  lemma CardDistinct<T>(s: seq<T>)
    requires |SetOf(s)| == |s|
    ensures Distinct(s)
  {
    if !Distinct(s) {
      var i, j :| 0 <= i < j < |s| && s[i] == s[j];
      var t := s[..j] + s[j + 1..];
      assert SetOf(s) <= SetOf(t) by {
        forall x | x in SetOf(s)
          ensures x in SetOf(t)
        {
          var k :| 0 <= k < |s| && s[k] == x;
          if k < j {
            assert t[k] == x;
          } else if k == j {
            assert t[i] == x;
          } else {
            assert t[k - 1] == x;
          }
        }
      }
      SetOfSize(t);
      SubsetSize(SetOf(s), SetOf(t));
    }
  }

  lemma {:induction false} SubsetSize<T>(a: set<T>, b: set<T>)
    requires a <= b
    ensures |a| <= |b|
    decreases |a|
  {
    if a != {} {
      var x :| x in a;
      SubsetSize(a - {x}, b - {x});
    }
  }
}
