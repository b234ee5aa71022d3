/**
 * Array.prototype.sort with a numeric comparator is a stable sort: elements
 * with equal keys keep their relative order.  Both trackers rely on it (the
 * task list ascending by due time, the leaderboard descending by count), so
 * it is modelled once, as insertion sort by an integer key.
 */
module StableSort {

  /** Ascending by key. */
  ghost predicate SortedBy<T>(s: seq<T>, key: T -> int)
  {
    forall i, j :: 0 <= i < j < |s| ==> key(s[i]) <= key(s[j])
  }

  /** The subsequence of the elements whose key is k, in their original order. */
  function WithKey<T>(s: seq<T>, key: T -> int, k: int): seq<T>
  {
    if s == [] then []
    else (if key(s[0]) == k then [s[0]] else []) + WithKey(s[1..], key, k)
  }

  /** Puts x in front of the first element whose key is not below x's. */
  function Insert<T>(x: T, s: seq<T>, key: T -> int): seq<T>
  {
    if s == [] then [x]
    else if key(x) <= key(s[0]) then [x] + s
    else [s[0]] + Insert(x, s[1..], key)
  }

  function SortBy<T>(s: seq<T>, key: T -> int): seq<T>
  {
    if s == [] then [] else Insert(s[0], SortBy(s[1..], key), key)
  }

  lemma {:induction false} WithKeyAppend<T>(s: seq<T>, t: seq<T>, key: T -> int, k: int)
    ensures WithKey(s + t, key, k) == WithKey(s, key, k) + WithKey(t, key, k)
  {
    if s == [] {
      assert s + t == t;
    } else {
      var u := s + t;
      assert u != [] && u[0] == s[0] && u[1..] == s[1..] + t;
      WithKeyAppend(s[1..], t, key, k);
      var h := if key(s[0]) == k then [s[0]] else [];
      assert WithKey(u, key, k) == h + WithKey(s[1..] + t, key, k);
      assert WithKey(s, key, k) == h + WithKey(s[1..], key, k);
    }
  }

  lemma WithKeySingle<T>(x: T, key: T -> int, k: int)
    ensures WithKey([x], key, k) == if key(x) == k then [x] else []
  {
    assert [x][1..] == [];
  }

  lemma {:induction false} InsertPermutes<T>(x: T, s: seq<T>, key: T -> int)
    ensures multiset(Insert(x, s, key)) == multiset([x] + s)
  {
    if s != [] && key(x) > key(s[0]) {
      InsertPermutes(x, s[1..], key);
      assert s == [s[0]] + s[1..];
    }
  }

  lemma {:induction false} InsertSorted<T>(x: T, s: seq<T>, key: T -> int)
    requires SortedBy(s, key)
    ensures SortedBy(Insert(x, s, key), key)
  {
    if s != [] && key(x) > key(s[0]) {
      InsertSorted(x, s[1..], key);
      InsertPermutes(x, s[1..], key);
      var r := Insert(x, s[1..], key);
      forall y | y in r
        ensures key(s[0]) <= key(y)
      {
        assert y in multiset(r);
        assert y in multiset([x] + s[1..]);
        if y != x {
          assert y in s[1..];
        }
      }
      forall i, j | 0 <= i < j < |[s[0]] + r|
        ensures key(([s[0]] + r)[i]) <= key(([s[0]] + r)[j])
      {
        if i == 0 {
          assert ([s[0]] + r)[j] in r;
        }
      }
    }
  }

  lemma SortedTail<T>(s: seq<T>, key: T -> int)
    requires s != [] && SortedBy(s, key)
    ensures SortedBy(s[1..], key)
  {
    forall i, j | 0 <= i < j < |s[1..]|
      ensures key(s[1..][i]) <= key(s[1..][j])
    {
      assert s[1..][i] == s[i + 1] && s[1..][j] == s[j + 1];
    }
  }

  /** Inserting x in front of its equal-keyed elements keeps each key's subsequence. */
  lemma {:induction false} InsertWithKey<T>(x: T, s: seq<T>, key: T -> int, k: int)
    requires SortedBy(s, key)
    ensures WithKey(Insert(x, s, key), key, k) == WithKey([x] + s, key, k)
  {
    if s != [] && key(x) > key(s[0]) {
      var tail := s[1..];
      var r := Insert(x, tail, key);
      var wx, w0, wt := WithKey([x], key, k), WithKey([s[0]], key, k), WithKey(tail, key, k);
      SortedTail(s, key);
      WithKeySingle(x, key, k);
      WithKeySingle(s[0], key, k);
      calc {
        WithKey(Insert(x, s, key), key, k);
        WithKey([s[0]] + r, key, k);
        { WithKeyAppend([s[0]], r, key, k); }
        w0 + WithKey(r, key, k);
        { InsertWithKey(x, tail, key, k); }
        w0 + WithKey([x] + tail, key, k);
        { WithKeyAppend([x], tail, key, k); }
        w0 + (wx + wt);
        wx + (w0 + wt);
        { WithKeyAppend([s[0]], tail, key, k); assert s == [s[0]] + tail; }
        wx + WithKey(s, key, k);
        { WithKeyAppend([x], s, key, k); }
        WithKey([x] + s, key, k);
      }
    }
  }

  /**
   * SortBy is ascending by key, a permutation of its input, and stable: for
   * every key value, the elements of that key appear in their input order.
   */
  lemma {:induction false} SortByCorrect<T>(s: seq<T>, key: T -> int)
    ensures |SortBy(s, key)| == |s|
    ensures multiset(SortBy(s, key)) == multiset(s)
    ensures SortedBy(SortBy(s, key), key)
    ensures forall k :: WithKey(SortBy(s, key), key, k) == WithKey(s, key, k)
  {
    if s != [] {
      var t := SortBy(s[1..], key);
      SortByCorrect(s[1..], key);
      InsertPermutes(s[0], t, key);
      InsertSorted(s[0], t, key);
      assert s == [s[0]] + s[1..];
      forall k
        ensures WithKey(SortBy(s, key), key, k) == WithKey(s, key, k)
      {
        InsertWithKey(s[0], t, key, k);
        WithKeyAppend([s[0]], t, key, k);
        WithKeyAppend([s[0]], s[1..], key, k);
      }
      assert |SortBy(s, key)| == |multiset(SortBy(s, key))|;
    }
  }

  /** Strictly ascending by pos. */
  ghost predicate StrictlyIncreasing<T>(s: seq<T>, pos: T -> int)
  {
    forall i, j :: 0 <= i < j < |s| ==> pos(s[i]) < pos(s[j])
  }

  /** Elements of equal key appear in ascending pos. */
  ghost predicate TiesOrdered<T>(s: seq<T>, key: T -> int, pos: T -> int)
  {
    forall i, j :: 0 <= i < j < |s| && key(s[i]) == key(s[j]) ==> pos(s[i]) < pos(s[j])
  }

  /** Prepending h keeps ties ordered when h precedes, in pos, every later element of its key. */
  lemma ConsTiesOrdered<T>(h: T, u: seq<T>, key: T -> int, pos: T -> int)
    requires TiesOrdered(u, key, pos)
    requires forall y :: y in u && key(y) == key(h) ==> pos(h) < pos(y)
    ensures TiesOrdered([h] + u, key, pos)
  {
    var r := [h] + u;
    forall i, j | 0 <= i < j < |r| && key(r[i]) == key(r[j])
      ensures pos(r[i]) < pos(r[j])
    {
      assert r[j] == u[j - 1];
      if i > 0 {
        assert r[i] == u[i - 1];
      }
    }
  }

  lemma {:induction false} InsertTiesOrdered<T>(x: T, t: seq<T>, key: T -> int, pos: T -> int)
    requires SortedBy(t, key) && TiesOrdered(t, key, pos)
    requires forall y :: y in t ==> pos(x) < pos(y)
    ensures TiesOrdered(Insert(x, t, key), key, pos)
  {
    if t != [] {
      if key(x) <= key(t[0]) {
        ConsTiesOrdered(x, t, key, pos);
      } else {
        var tail := t[1..];
        assert SortedBy(tail, key) && TiesOrdered(tail, key, pos) by {
          forall i, j | 0 <= i < j < |tail|
            ensures key(tail[i]) <= key(tail[j])
            ensures key(tail[i]) == key(tail[j]) ==> pos(tail[i]) < pos(tail[j])
          {
            assert tail[i] == t[i + 1] && tail[j] == t[j + 1];
          }
        }
        var u := Insert(x, tail, key);
        InsertTiesOrdered(x, tail, key, pos);
        InsertPermutes(x, tail, key);
        forall y | y in u && key(y) == key(t[0])
          ensures pos(t[0]) < pos(y)
        {
          assert y in multiset([x] + tail);
          assert y != x;
          var m :| 0 <= m < |tail| && tail[m] == y;
          assert t[m + 1] == y;
        }
        ConsTiesOrdered(t[0], u, key, pos);
      }
    }
  }

  /** Sorting an input listed in ascending pos leaves equal-keyed elements in ascending pos. */
  lemma {:induction false} SortByTiesOrdered<T>(s: seq<T>, key: T -> int, pos: T -> int)
    requires StrictlyIncreasing(s, pos)
    ensures TiesOrdered(SortBy(s, key), key, pos)
  {
    if s != [] {
      var t := SortBy(s[1..], key);
      SortByTiesOrdered(s[1..], key, pos);
      SortByCorrect(s[1..], key);
      forall y | y in t
        ensures pos(s[0]) < pos(y)
      {
        assert y in multiset(s[1..]);
        var m :| 0 <= m < |s[1..]| && s[1..][m] == y;
        assert s[m + 1] == y;
      }
      InsertTiesOrdered(s[0], t, key, pos);
    }
  }
}
