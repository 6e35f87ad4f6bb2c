/**
 * PHP 8's `usort` with a comparator `$b[k] <=> $a[k]`: a STABLE sort into non-increasing
 * order of a key. Stability is part of the library's contract since PHP 8.0, and the
 * keyword code relies on it for its tie-breaking.
 */
module Sorting {

  /** Non-increasing by `key`. */
  ghost predicate SortedDesc<T>(s: seq<T>, key: T -> real) {
    forall i, j :: 0 <= i < j < |s| ==> key(s[i]) >= key(s[j])
  }

  /** The elements of `s` whose key is `v`, in their order in `s`. */
  function WithKey<T>(s: seq<T>, key: T -> real, v: real): (r: seq<T>)
    ensures |r| <= |s|
  {
    if s == [] then []
    else (if key(s[0]) == v then [s[0]] else []) + WithKey(s[1..], key, v)
  }

  /** Inserts `x` in front of the first element whose key is not larger than its own. */
  function Insert<T>(x: T, s: seq<T>, key: T -> real): (r: seq<T>)
    ensures |r| == |s| + 1
  {
    if s == [] then [x]
    else if key(x) >= key(s[0]) then [x] + s
    else [s[0]] + Insert(x, s[1..], key)
  }

  lemma {:induction false} InsertPermutes<T>(x: T, s: seq<T>, key: T -> real)
    ensures multiset(Insert(x, s, key)) == multiset(s) + multiset{x}
  {
    if s != [] {
      assert s == [s[0]] + s[1..];
      if key(x) < key(s[0]) {
        InsertPermutes(x, s[1..], key);
      }
    }
  }

  lemma {:induction false} InsertSorted<T>(x: T, s: seq<T>, key: T -> real)
    requires SortedDesc(s, key)
    ensures SortedDesc(Insert(x, s, key), key)
  {
    if s != [] && key(x) < key(s[0]) {
      var t := Insert(x, s[1..], key);
      assert SortedDesc(s[1..], key);
      InsertSorted(x, s[1..], key);
      InsertPermutes(x, s[1..], key);
      forall z | z in t ensures key(z) <= key(s[0]) {
        assert z in multiset(t);
        if z != x {
          assert z in multiset(s[1..]);
          var i :| 0 <= i < |s[1..]| && s[1..][i] == z;
          assert s[i + 1] == z;
        }
      }
      SortedCons(s[0], t, key);
    }
  }

  /** An element no smaller than everything in a sorted list may go in front of it. */
  lemma SortedCons<T>(y: T, t: seq<T>, key: T -> real)
    requires SortedDesc(t, key)
    requires forall z :: z in t ==> key(z) <= key(y)
    ensures SortedDesc([y] + t, key)
  {
    var r := [y] + t;
    forall i, j | 0 <= i < j < |r| ensures key(r[i]) >= key(r[j]) {
      assert r[j] == t[j - 1];
      if i > 0 {
        assert r[i] == t[i - 1];
      } else {
        assert t[j - 1] in t;
      }
    }
  }

  /** Stable sort into non-increasing key order. */
  function SortDesc<T>(s: seq<T>, key: T -> real): (r: seq<T>)
    ensures |r| == |s|
    ensures multiset(r) == multiset(s)
    ensures SortedDesc(r, key)
  {
    if s == [] then []
    else
      var t := SortDesc(s[1..], key);
      InsertPermutes(s[0], t, key);
      InsertSorted(s[0], t, key);
      assert s == [s[0]] + s[1..];
      Insert(s[0], t, key)
  }

  lemma WithKeyCons<T>(y: T, t: seq<T>, key: T -> real, v: real)
    ensures WithKey([y] + t, key, v) == (if key(y) == v then [y] else []) + WithKey(t, key, v)
  {
    assert ([y] + t)[1..] == t;
  }

  lemma {:induction false} InsertWithKey<T>(x: T, s: seq<T>, key: T -> real, v: real)
    ensures WithKey(Insert(x, s, key), key, v)
         == (if key(x) == v then [x] else []) + WithKey(s, key, v)
  {
    if s == [] {
      assert Insert(x, s, key) == [x] + s;
      WithKeyCons(x, s, key, v);
    } else if key(x) >= key(s[0]) {
      assert Insert(x, s, key) == [x] + s;
      WithKeyCons(x, s, key, v);
    } else {
      var t := Insert(x, s[1..], key);
      assert Insert(x, s, key) == [s[0]] + t;
      assert s == [s[0]] + s[1..];
      InsertWithKey(x, s[1..], key, v);
      WithKeyCons(s[0], t, key, v);
      WithKeyCons(s[0], s[1..], key, v);
      var rest := WithKey(s[1..], key, v);
      if key(s[0]) == v {
        assert key(x) != v;
        assert WithKey(Insert(x, s, key), key, v) == [s[0]] + rest;
      } else {
        assert WithKey(Insert(x, s, key), key, v) == (if key(x) == v then [x] else []) + rest;
      }
    }
  }

  /**
   * Stability: for every key value, the elements carrying it keep their relative order.
   */
  lemma {:induction false} SortDescStable<T>(s: seq<T>, key: T -> real, v: real)
    ensures WithKey(SortDesc(s, key), key, v) == WithKey(s, key, v)
  {
    if s != [] {
      SortDescStable(s[1..], key, v);
      InsertWithKey(s[0], SortDesc(s[1..], key), key, v);
    }
  }

  /** An element whose key is at least every other key, and which comes first, stays first. */
  lemma {:induction false} SortDescKeepsLeadingMaximum<T>(s: seq<T>, key: T -> real)
    requires |s| > 0
    requires forall j :: 0 <= j < |s| ==> key(s[j]) <= key(s[0])
    ensures SortDesc(s, key)[0] == s[0]
  {
    var t := SortDesc(s[1..], key);
    if t != [] {
      assert t[0] in multiset(s[1..]);
      var j :| 0 <= j < |s[1..]| && s[1..][j] == t[0];
      assert key(s[j + 1]) <= key(s[0]);
    }
  }

  /**
   * The head of the sorted sequence is the FIRST element of maximal key: every element
   * before it in the input has a strictly smaller key, and no element has a larger one.
   */
  lemma SortDescHeadIsFirstMaximum<T>(s: seq<T>, key: T -> real)
    requires |s| > 0
    ensures exists i :: 0 <= i < |s| && s[i] == SortDesc(s, key)[0]
              && (forall j :: 0 <= j < i ==> key(s[j]) < key(s[i]))
              && (forall j :: 0 <= j < |s| ==> key(s[j]) <= key(s[i]))
  {
    var r := SortDesc(s, key);
    var v := key(r[0]);
    forall j | 0 <= j < |s| ensures key(s[j]) <= v {
      assert s[j] in multiset(r);
      var k :| 0 <= k < |r| && r[k] == s[j];
      assert k == 0 || key(r[0]) >= key(r[k]);
    }
    SortDescStable(s, key, v);
    assert r == [r[0]] + r[1..];
    assert WithKey(r, key, v)[0] == r[0];
    var i := FirstWithKey(s, key, v);
    assert s[i] == r[0];
  }

  /** The position of the first element of key `v`, which heads `WithKey(s, key, v)`. */
  lemma {:induction false} FirstWithKey<T>(s: seq<T>, key: T -> real, v: real) returns (i: nat)
    requires WithKey(s, key, v) != []
    ensures i < |s| && s[i] == WithKey(s, key, v)[0] && key(s[i]) == v
    ensures forall j :: 0 <= j < i ==> key(s[j]) != v
  {
    if key(s[0]) == v {
      i := 0;
    } else {
      var k := FirstWithKey(s[1..], key, v);
      i := k + 1;
    }
  }

  /** Sorting only rearranges: whatever is in the result was in the input. */
  lemma InSorted<T>(s: seq<T>, key: T -> real, x: T)
    requires x in SortDesc(s, key)
    ensures x in s
  {
    assert x in multiset(SortDesc(s, key));
  }
}
