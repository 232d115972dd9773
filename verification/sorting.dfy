/**
  Stable sorting by a lexicographic integer key, the shape of every
  comparator the scripts pass to `Array.prototype.sort` (which is stable).
*/
module Sorting {

  /** Lexicographic order on integer sequences; a proper prefix comes first. */
  predicate LexLe(a: seq<int>, b: seq<int>)
    decreases |a|
  {
    a == [] || (b != [] && (a[0] < b[0] || (a[0] == b[0] && LexLe(a[1..], b[1..]))))
  }

  lemma {:induction false} LexLeTotal(a: seq<int>, b: seq<int>)
    ensures LexLe(a, b) || LexLe(b, a)
    decreases |a|
  {
    if a != [] && b != [] && a[0] == b[0] {
      LexLeTotal(a[1..], b[1..]);
    }
  }

  lemma {:induction false} LexLeTransitive(a: seq<int>, b: seq<int>, c: seq<int>)
    requires LexLe(a, b) && LexLe(b, c)
    ensures LexLe(a, c)
    decreases |a|
  {
    if a != [] && a[0] == b[0] && b[0] == c[0] {
      LexLeTransitive(a[1..], b[1..], c[1..]);
    }
  }

  predicate SortedBy<T>(s: seq<T>, key: T -> seq<int>) {
    forall i, j :: 0 <= i < j < |s| ==> LexLe(key(s[i]), key(s[j]))
  }

  /** Appending an element no smaller than any other keeps a sequence sorted. */
  lemma SortedSnoc<T>(s: seq<T>, x: T, key: T -> seq<int>)
    requires SortedBy(s, key)
    requires forall i :: 0 <= i < |s| ==> LexLe(key(s[i]), key(x))
    ensures SortedBy(s + [x], key)
  {
    var r := s + [x];
    forall i, j | 0 <= i < j < |r| ensures LexLe(key(r[i]), key(r[j])) {
      assert r[i] == s[i];
    }
  }

  /** In a sorted sequence whose last element is at most `x`, every element is at most `x`. */
  lemma BelowLast<T>(s: seq<T>, x: T, key: T -> seq<int>)
    requires SortedBy(s, key) && s != [] && LexLe(key(s[|s| - 1]), key(x))
    ensures forall i :: 0 <= i < |s| ==> LexLe(key(s[i]), key(x))
  {
    forall i | 0 <= i < |s| - 1 {
      LexLeTransitive(key(s[i]), key(s[|s| - 1]), key(x));
    }
  }

  /** A rearrangement of elements that are all at most `top`, plus `x` at most `top`, stays at most `top`. */
  lemma BelowAfterInsert<T>(front: seq<T>, x: T, r: seq<T>, top: T, key: T -> seq<int>)
    requires forall i :: 0 <= i < |front| ==> LexLe(key(front[i]), key(top))
    requires LexLe(key(x), key(top))
    requires multiset(r) == multiset(front) + multiset{x}
    ensures forall i :: 0 <= i < |r| ==> LexLe(key(r[i]), key(top))
  {
    forall i | 0 <= i < |r| ensures LexLe(key(r[i]), key(top)) {
      assert r[i] in multiset(r);
      if r[i] != x {
        assert r[i] in multiset(front);
        var k :| 0 <= k < |front| && front[k] == r[i];
      }
    }
  }

  /** Inserts `x` after every element whose key is at most its own. */
  function Insert<T>(s: seq<T>, x: T, key: T -> seq<int>): (r: seq<T>)
    requires SortedBy(s, key)
    ensures SortedBy(r, key)
    ensures multiset(r) == multiset(s) + multiset{x}
    ensures |r| == |s| + 1
  {
    if s == [] then [x]
    else
      var last := s[|s| - 1];
      if LexLe(key(last), key(x)) then
        BelowLast(s, x, key);
        SortedSnoc(s, x, key);
        s + [x]
      else
        var front := s[..|s| - 1];
        assert s == front + [last];
        LexLeTotal(key(last), key(x));
        var r := Insert(front, x, key);
        BelowAfterInsert(front, x, r, last, key);
        SortedSnoc(r, last, key);
        r + [last]
  }

  /** Stable insertion sort by `key`: a sorted permutation of `s` (stability is `SortStable`). */
  function SortBy<T>(s: seq<T>, key: T -> seq<int>): (r: seq<T>)
    ensures SortedBy(r, key)
    ensures multiset(r) == multiset(s)
    ensures |r| == |s|
  {
    if s == [] then []
    else
      assert s == s[..|s| - 1] + [s[|s| - 1]];
      Insert(SortBy(s[..|s| - 1], key), s[|s| - 1], key)
  }

  /** The elements of `s` whose key is `k`, in their order in `s`. */
  function WithKey<T>(s: seq<T>, key: T -> seq<int>, k: seq<int>): seq<T> {
    if s == [] then []
    else (if key(s[0]) == k then [s[0]] else []) + WithKey(s[1..], key, k)
  }

  lemma {:induction false} WithKeyAppend<T>(a: seq<T>, b: seq<T>, key: T -> seq<int>, k: seq<int>)
    ensures WithKey(a + b, key, k) == WithKey(a, key, k) + WithKey(b, key, k)
    decreases |a|
  {
    if a == [] {
      assert a + b == b;
    } else {
      var head := if key(a[0]) == k then [a[0]] else [];
      WithKeyAppend(a[1..], b, key, k);
      assert (a + b)[0] == a[0] && (a + b)[1..] == a[1..] + b;
      assert WithKey(a + b, key, k) == head + WithKey(a[1..] + b, key, k);
      assert WithKey(a, key, k) == head + WithKey(a[1..], key, k);
    }
  }

  lemma {:induction false} LexLeReflexive(a: seq<int>)
    ensures LexLe(a, a)
    decreases |a|
  {
    if a != [] {
      LexLeReflexive(a[1..]);
    }
  }

  /** Inserting `x` puts it after every element with the same key. */
  lemma {:induction false} InsertStable<T>(s: seq<T>, x: T, key: T -> seq<int>, k: seq<int>)
    requires SortedBy(s, key)
    ensures WithKey(Insert(s, x, key), key, k) == WithKey(s, key, k) + WithKey([x], key, k)
    decreases |s|
  {
    if s == [] {
      assert Insert(s, x, key) == [x];
      assert WithKey(s, key, k) == [];
    } else {
      var last := s[|s| - 1];
      if LexLe(key(last), key(x)) {
        WithKeyAppend(s, [x], key, k);
      } else {
        var front := s[..|s| - 1];
        assert s == front + [last];
        var r := Insert(front, x, key);
        assert Insert(s, x, key) == r + [last];
        InsertStable(front, x, key, k);
        LexLeReflexive(key(x));
        MovePast(front, x, last, r, key, k);
      }
    }
  }

  /** Moving `x` past an element with another key does not change the order within any key. */
  lemma MovePast<T>(front: seq<T>, x: T, last: T, r: seq<T>, key: T -> seq<int>, k: seq<int>)
    requires key(last) != key(x)
    requires WithKey(r, key, k) == WithKey(front, key, k) + WithKey([x], key, k)
    ensures WithKey(r + [last], key, k) == WithKey(front + [last], key, k) + WithKey([x], key, k)
  {
    WithKeyAppend(r, [last], key, k);
    WithKeyAppend(front, [last], key, k);
    assert WithKey([x], key, k) == [] || WithKey([last], key, k) == [];
  }

  /**
    The sort is stable: the elements sharing any one key keep their
    relative order.
  */
  lemma {:induction false} SortStable<T>(s: seq<T>, key: T -> seq<int>, k: seq<int>)
    ensures WithKey(SortBy(s, key), key, k) == WithKey(s, key, k)
    decreases |s|
  {
    if s != [] {
      var front := s[..|s| - 1];
      var x := s[|s| - 1];
      assert s == front + [x];
      SortStable(front, key, k);
      InsertStable(SortBy(front, key), x, key, k);
      WithKeyAppend(front, [x], key, k);
    }
  }

  /** A prefix of a sorted sequence is sorted. */
  lemma SortedPrefix<T>(s: seq<T>, key: T -> seq<int>, n: nat)
    requires SortedBy(s, key) && n <= |s|
    ensures SortedBy(s[..n], key)
  {
  }

  /** No two elements share an `id`. */
  ghost predicate DistinctBy<T, K>(s: seq<T>, id: T -> K) {
    forall i, j :: 0 <= i < j < |s| ==> id(s[i]) != id(s[j])
  }

  /** Appending an element whose id is new keeps ids distinct. */
  lemma DistinctSnoc<T, K>(s: seq<T>, x: T, id: T -> K)
    requires DistinctBy(s, id)
    requires forall i :: 0 <= i < |s| ==> id(s[i]) != id(x)
    ensures DistinctBy(s + [x], id)
  {
    var r := s + [x];
    forall i, j | 0 <= i < j < |r| ensures id(r[i]) != id(r[j]) {
      assert r[i] == s[i];
    }
  }

  /** Dropping the last element keeps ids distinct, and its id is not among the others. */
  lemma DistinctFront<T, K>(s: seq<T>, id: T -> K)
    requires DistinctBy(s, id) && s != []
    ensures DistinctBy(s[..|s| - 1], id)
    ensures forall i :: 0 <= i < |s| - 1 ==> id(s[i]) != id(s[|s| - 1])
  {
  }

  lemma {:induction false} InsertDistinct<T, K>(s: seq<T>, x: T, key: T -> seq<int>, id: T -> K)
    requires SortedBy(s, key) && DistinctBy(s, id)
    requires forall i :: 0 <= i < |s| ==> id(s[i]) != id(x)
    ensures DistinctBy(Insert(s, x, key), id)
    decreases |s|
  {
    if s == [] {
    } else if LexLe(key(s[|s| - 1]), key(x)) {
      DistinctSnoc(s, x, id);
    } else {
      var front := s[..|s| - 1];
      var last := s[|s| - 1];
      DistinctFront(s, id);
      InsertDistinct(front, x, key, id);
      var r := Insert(front, x, key);
      assert Insert(s, x, key) == r + [last];
      forall i | 0 <= i < |r| ensures id(r[i]) != id(last) {
        assert r[i] in multiset(r);
        if r[i] != x {
          assert r[i] in multiset(front);
          var k :| 0 <= k < |front| && front[k] == r[i];
        }
      }
      DistinctSnoc(r, last, id);
    }
  }

  /** Sorting keeps distinct ids distinct. */
  lemma {:induction false} SortDistinct<T, K>(s: seq<T>, key: T -> seq<int>, id: T -> K)
    ensures DistinctBy(s, id) ==> DistinctBy(SortBy(s, key), id)
    decreases |s|
  {
    if s != [] && DistinctBy(s, id) {
      var front := s[..|s| - 1];
      var x := s[|s| - 1];
      SortDistinct(front, key, id);
      var sf := SortBy(front, key);
      forall i | 0 <= i < |sf| ensures id(sf[i]) != id(x) {
        assert sf[i] in multiset(sf);
        assert sf[i] in multiset(front);
        var k :| 0 <= k < |front| && front[k] == sf[i];
        assert s[k] == sf[i];
      }
      InsertDistinct(sf, x, key, id);
    }
  }

  /** Sorting neither adds nor loses elements. */
  lemma SortMembers<T>(s: seq<T>, key: T -> seq<int>)
    ensures forall x :: x in SortBy(s, key) <==> x in s
  {
    var r := SortBy(s, key);
    forall x ensures x in r <==> x in s {
      assert x in r <==> x in multiset(r);
      assert x in s <==> x in multiset(s);
    }
  }

  /** The first component decides a lexicographic comparison unless it ties. */
  lemma LexLeHead(a: seq<int>, b: seq<int>)
    requires a != [] && b != [] && LexLe(a, b)
    ensures a[0] <= b[0]
  {
  }
}
