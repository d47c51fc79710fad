/**
  `list.sort(key=...)` on string keys, as the scanner uses it to order its
  entries: Python compares strings code point by code point, and its sort
  is stable. The model is an insertion sort; its lemmas show that the result
  is ordered, is a permutation of the input, and keeps the input order of
  elements with equal keys, which is what Python's stable sort promises.
*/
module Ordering {

  /** `a <= b` on Python strings. */
  predicate LexLe(a: string, b: string)
  {
    a == [] || (b != [] && (a[0] < b[0] || (a[0] == b[0] && LexLe(a[1..], b[1..]))))
  }

  lemma {:induction false} LexLeTotal(a: string, b: string)
    ensures LexLe(a, b) || LexLe(b, a)
  {
    if a != [] && b != [] && a[0] == b[0] {
      LexLeTotal(a[1..], b[1..]);
    }
  }

  lemma {:induction false} LexLeTransitive(a: string, b: string, c: string)
    requires LexLe(a, b) && LexLe(b, c)
    ensures LexLe(a, c)
  {
    if a != [] && b != [] && c != [] && a[0] == b[0] == c[0] {
      LexLeTransitive(a[1..], b[1..], c[1..]);
    }
  }

  lemma {:induction false} LexLeAntisymmetric(a: string, b: string)
    requires LexLe(a, b) && LexLe(b, a)
    ensures a == b
  {
    if a != [] && b != [] {
      LexLeAntisymmetric(a[1..], b[1..]);
      assert a == [a[0]] + a[1..] && b == [b[0]] + b[1..];
    }
  }

  predicate SortedBy<T>(s: seq<T>, key: T -> string)
  {
    forall i, j :: 0 <= i < j < |s| ==> LexLe(key(s[i]), key(s[j]))
  }

  /** Puts `x` after every element of `s` whose key is not greater than its own. */
  function Insert<T>(s: seq<T>, x: T, key: T -> string): (r: seq<T>)
    ensures |r| == |s| + 1
  {
    if s == [] then [x]
    else if LexLe(key(s[|s| - 1]), key(x)) then s + [x]
    else Insert(s[..|s| - 1], x, key) + [s[|s| - 1]]
  }

  /** The stable sort of `s` by `key`. */
  function SortBy<T>(s: seq<T>, key: T -> string): (r: seq<T>)
    ensures |r| == |s|
  {
    if s == [] then [] else Insert(SortBy(s[..|s| - 1], key), s[|s| - 1], key)
  }

  /** The elements of `s` whose key is `k`, in order. */
  function WithKey<T>(s: seq<T>, key: T -> string, k: string): (r: seq<T>)
  {
    if s == [] then []
    else WithKey(s[..|s| - 1], key, k) + (if key(s[|s| - 1]) == k then [s[|s| - 1]] else [])
  }

  lemma {:induction false} InsertPermutes<T>(s: seq<T>, x: T, key: T -> string)
    ensures multiset(Insert(s, x, key)) == multiset(s) + multiset{x}
  {
    if s != [] && !LexLe(key(s[|s| - 1]), key(x)) {
      InsertPermutes(s[..|s| - 1], x, key);
      assert s == s[..|s| - 1] + [s[|s| - 1]];
    }
  }

  lemma {:induction false} InsertSorted<T>(s: seq<T>, x: T, key: T -> string)
    requires SortedBy(s, key)
    ensures SortedBy(Insert(s, x, key), key)
  {
    if s == [] {
    } else if LexLe(key(s[|s| - 1]), key(x)) {
      var r := s + [x];
      forall i, j | 0 <= i < j < |r| ensures LexLe(key(r[i]), key(r[j])) {
        if j == |s| && i < |s| - 1 {
          LexLeTransitive(key(s[i]), key(s[|s| - 1]), key(x));
        }
      }
    } else {
      var init, last := s[..|s| - 1], s[|s| - 1];
      InsertSorted(init, x, key);
      InsertPermutes(init, x, key);
      LexLeTotal(key(last), key(x));
      var t := Insert(init, x, key);
      forall i | 0 <= i < |t| ensures LexLe(key(t[i]), key(last)) {
        assert t[i] in multiset(t);
        if t[i] != x {
          assert t[i] in multiset(init);
          var k :| 0 <= k < |init| && init[k] == t[i];
          assert s[k] == t[i];
        }
      }
    }
  }

  /** The result is ordered by key. */
  lemma {:induction false} SortBySorted<T>(s: seq<T>, key: T -> string)
    ensures SortedBy(SortBy(s, key), key)
  {
    if s != [] {
      SortBySorted(s[..|s| - 1], key);
      InsertSorted(SortBy(s[..|s| - 1], key), s[|s| - 1], key);
    }
  }

  /** The result holds the same elements, as often as the input does. */
  lemma {:induction false} SortByPermutes<T>(s: seq<T>, key: T -> string)
    ensures multiset(SortBy(s, key)) == multiset(s)
  {
    if s != [] {
      SortByPermutes(s[..|s| - 1], key);
      InsertPermutes(SortBy(s[..|s| - 1], key), s[|s| - 1], key);
      assert s == s[..|s| - 1] + [s[|s| - 1]];
    }
  }

  lemma {:induction false} InsertKeepsEqualKeyOrder<T>(s: seq<T>, x: T, key: T -> string, k: string)
    ensures WithKey(Insert(s, x, key), key, k) == WithKey(s, key, k) + (if key(x) == k then [x] else [])
  {
    if s == [] {
      assert WithKey([x], key, k) == WithKey([], key, k) + (if key(x) == k then [x] else []) by {
        assert [x][..0] == [];
      }
    } else if LexLe(key(s[|s| - 1]), key(x)) {
      assert (s + [x])[..|s|] == s;
    } else {
      var init, last := s[..|s| - 1], s[|s| - 1];
      InsertKeepsEqualKeyOrder(init, x, key, k);
      var t := Insert(init, x, key);
      assert (t + [last])[..|t|] == t;
      if key(x) == k {
        assert key(last) != k by { LexLeTotal(key(last), key(x)); }
      }
    }
  }

  /** Stability: the elements sharing a key keep their input order. */
  lemma {:induction false} SortByStable<T>(s: seq<T>, key: T -> string, k: string)
    ensures WithKey(SortBy(s, key), key, k) == WithKey(s, key, k)
  {
    if s != [] {
      SortByStable(s[..|s| - 1], key, k);
      InsertKeepsEqualKeyOrder(SortBy(s[..|s| - 1], key), s[|s| - 1], key, k);
    }
  }

  /** Every two elements, the earlier first, are related by `ok`. */
  predicate Pairwise<T>(s: seq<T>, ok: (T, T) -> bool)
  {
    forall i, j :: 0 <= i < j < |s| ==> ok(s[i], s[j])
  }

  lemma {:induction false} InsertPosition<T>(s: seq<T>, x: T, key: T -> string) returns (i: nat)
    ensures i <= |s| && Insert(s, x, key) == s[..i] + [x] + s[i..]
  {
    if s == [] || LexLe(key(s[|s| - 1]), key(x)) {
      i := |s|;
    } else {
      var init := s[..|s| - 1];
      i := InsertPosition(init, x, key);
      assert init[..i] == s[..i];
      assert init[i..] + [s[|s| - 1]] == s[i..];
    }
  }

  lemma PairwiseInsert<T>(t: seq<T>, x: T, i: nat, ok: (T, T) -> bool)
    requires i <= |t| && Pairwise(t, ok)
    requires forall a, b :: ok(a, b) == ok(b, a)
    requires forall k :: 0 <= k < |t| ==> ok(t[k], x)
    ensures Pairwise(t[..i] + [x] + t[i..], ok)
  {
    var r := t[..i] + [x] + t[i..];
    forall a, b | 0 <= a < b < |r| ensures ok(r[a], r[b]) {
      if a < i && b == i {
      } else if a == i {
        assert ok(r[b], r[a]);
      } else {
        var a', b' := if a < i then a else a - 1, if b < i then b else b - 1;
        assert r[a] == t[a'] && r[b] == t[b'];
      }
    }
  }

  /** A symmetric relation that holds between all elements of the input
      holds between all elements of the sorted result. */
  lemma {:induction false} SortByKeepsPairwise<T>(s: seq<T>, key: T -> string, ok: (T, T) -> bool)
    requires forall a, b :: ok(a, b) == ok(b, a)
    requires Pairwise(s, ok)
    ensures Pairwise(SortBy(s, key), ok)
  {
    if s != [] {
      var init, x := s[..|s| - 1], s[|s| - 1];
      assert Pairwise(init, ok) by {
        forall a, b | 0 <= a < b < |init| ensures ok(init[a], init[b]) {
          assert init[a] == s[a] && init[b] == s[b];
        }
      }
      SortByKeepsPairwise(init, key, ok);
      SortByPermutes(init, key);
      var t := SortBy(init, key);
      forall k | 0 <= k < |t| ensures ok(t[k], x) {
        assert t[k] in multiset(init) by { assert t[k] in multiset(t); }
        var m :| 0 <= m < |init| && init[m] == t[k];
        assert s[m] == t[k];
      }
      var i := InsertPosition(t, x, key);
      PairwiseInsert(t, x, i, ok);
    }
  }
}
