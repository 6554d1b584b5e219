/**
 * The three query operators the controllers chain together: `Where`
 * (Filter), an `OrderByDescending` on an integer key (SortDesc) and
 * `Take` after it (Newest).
 */
module Queries {

  /** The elements of `s` that satisfy `p`, in their original order. */
  function Filter<T(==)>(s: seq<T>, p: T -> bool): (r: seq<T>)
    ensures |r| <= |s|
  {
    if s == [] then []
    else (if p(s[0]) then [s[0]] else []) + Filter(s[1..], p)
  }

  /** Exactly the elements of `s` that satisfy `p` survive, with their multiplicities. */
  lemma {:induction false} FilterMembers<T>(s: seq<T>, p: T -> bool)
    ensures forall x :: x in Filter(s, p) <==> x in s && p(x)
    ensures multiset(Filter(s, p)) <= multiset(s)
    ensures forall x :: p(x) ==> multiset(Filter(s, p))[x] == multiset(s)[x]
  {
    if s != [] {
      FilterMembers(s[1..], p);
      assert s == [s[0]] + s[1..];
    }
  }

  lemma {:induction false} FilterNone<T>(s: seq<T>, p: T -> bool)
    requires forall x :: x in s ==> !p(x)
    ensures Filter(s, p) == []
  {
    if s != [] {
      assert s[0] in s;
      FilterNone(s[1..], p);
    }
  }

  /** Filtering distributes over concatenation, so it keeps the order of `s`. */
  lemma {:induction false} FilterAppend<T>(a: seq<T>, b: seq<T>, p: T -> bool)
    ensures Filter(a + b, p) == Filter(a, p) + Filter(b, p)
  {
    if a == [] {
      assert a + b == b;
    } else {
      var head := if p(a[0]) then [a[0]] else [];
      assert (a + b)[1..] == a[1..] + b;
      FilterAppend(a[1..], b, p);
      calc {
        Filter(a + b, p);
        head + Filter(a[1..] + b, p);
        head + (Filter(a[1..], p) + Filter(b, p));
        (head + Filter(a[1..], p)) + Filter(b, p);
        Filter(a, p) + Filter(b, p);
      }
    }
  }

  /** Keys never increase from left to right. */
  predicate NonIncreasing<T>(s: seq<T>, key: T -> int) {
    forall i, j :: 0 <= i < j < |s| ==> key(s[i]) >= key(s[j])
  }

  /**
   * Inserts `x` into `t` in front of the first element whose key is not
   * larger than its own, so that `x` precedes every element of equal key.
   */
  function InsertDesc<T(==)>(x: T, t: seq<T>, key: T -> int): (r: seq<T>)
    ensures |r| == |t| + 1
    ensures multiset(r) == multiset(t) + multiset{x}
  {
    if t == [] || key(t[0]) <= key(x) then [x] + t
    else
      assert t == [t[0]] + t[1..];
      [t[0]] + InsertDesc(x, t[1..], key)
  }

  lemma InsertDescMembers<T>(x: T, t: seq<T>, key: T -> int, y: T)
    requires y in InsertDesc(x, t, key)
    ensures y == x || y in t
  {
    assert y in multiset(InsertDesc(x, t, key));
  }

  lemma {:induction false} InsertDescSorted<T>(x: T, t: seq<T>, key: T -> int)
    requires NonIncreasing(t, key)
    ensures NonIncreasing(InsertDesc(x, t, key), key)
  {
    if t != [] && key(t[0]) > key(x) {
      var rest := InsertDesc(x, t[1..], key);
      InsertDescSorted(x, t[1..], key);
      forall j | 0 <= j < |rest| ensures key(rest[j]) <= key(t[0]) {
        InsertDescMembers(x, t[1..], key, rest[j]);
      }
      var r := InsertDesc(x, t, key);
      assert r == [t[0]] + rest;
      forall i, j | 0 <= i < j < |r| ensures key(r[i]) >= key(r[j]) {
        assert r[j] == rest[j - 1];
        if i > 0 {
          assert r[i] == rest[i - 1];
        }
      }
    }
  }

  /** A sort into non-increasing key order (insertion sort; no tie order is stated). */
  function SortDesc<T(==)>(s: seq<T>, key: T -> int): (r: seq<T>)
    ensures |r| == |s|
    ensures multiset(r) == multiset(s)
  {
    if s == [] then []
    else
      assert s == [s[0]] + s[1..];
      InsertDesc(s[0], SortDesc(s[1..], key), key)
  }

  lemma {:induction false} SortDescSorted<T>(s: seq<T>, key: T -> int)
    ensures NonIncreasing(SortDesc(s, key), key)
  {
    if s != [] {
      SortDescSorted(s[1..], key);
      InsertDescSorted(s[0], SortDesc(s[1..], key), key);
    }
  }

  lemma FilterCons<T>(x: T, s: seq<T>, p: T -> bool)
    ensures Filter([x] + s, p) == (if p(x) then [x] else []) + Filter(s, p)
  {
    assert ([x] + s)[1..] == s;
  }

  /** The `cap` elements of largest key, largest first (sort, then take). */
  function Newest<T(==)>(s: seq<T>, key: T -> int, cap: nat): (r: seq<T>)
    ensures |r| == if |s| <= cap then |s| else cap
    ensures NonIncreasing(r, key)
    ensures multiset(r) <= multiset(s)
    ensures |s| <= cap ==> multiset(r) == multiset(s)
  {
    var sorted := SortDesc(s, key);
    SortDescSorted(s, key);
    if |sorted| <= cap then sorted
    else
      assert sorted == sorted[..cap] + sorted[cap..];
      sorted[..cap]
  }

  /** In a sorted sequence, everything before position `n` is at least as large as everything after. */
  lemma SortedSplit<T>(s: seq<T>, key: T -> int, n: nat, x: T, y: T)
    requires NonIncreasing(s, key) && n <= |s|
    requires y in s[..n] && x in s[n..]
    ensures key(y) >= key(x)
  {
    var i :| 0 <= i < n && s[..n][i] == y;
    var m :| 0 <= m < |s| - n && s[n..][m] == x;
    assert s[i] == y && s[n + m] == x;
  }

  /** An element with more copies in `u` than in its first `n` elements occurs after them. */
  lemma DroppedIsInTail<T>(u: seq<T>, n: nat, x: T)
    requires n <= |u|
    requires multiset(u[..n])[x] < multiset(u)[x]
    ensures x in u[n..]
  {
    assert u == u[..n] + u[n..];
    assert multiset(u) == multiset(u[..n]) + multiset(u[n..]);
  }

  /** An element that the cap dropped is no newer than anything kept. */
  lemma NewestKeepsNewest<T>(s: seq<T>, key: T -> int, cap: nat, x: T)
    requires multiset(Newest(s, key, cap))[x] < multiset(s)[x]
    ensures forall y :: y in Newest(s, key, cap) ==> key(y) >= key(x)
  {
    var sorted := SortDesc(s, key);
    SortDescSorted(s, key);
    assert |sorted| > cap;
    assert Newest(s, key, cap) == sorted[..cap];
    DroppedIsInTail(sorted, cap, x);
    forall y | y in sorted[..cap] ensures key(y) >= key(x) {
      SortedSplit(sorted, key, cap, x, y);
    }
  }

  /** Everything a filtered query returns was in the input and passes the filter. */
  lemma NewestOfFilter<T>(s: seq<T>, p: T -> bool, key: T -> int, cap: nat)
    ensures forall x :: x in Newest(Filter(s, p), key, cap) ==> x in s && p(x)
  {
    var matching := Filter(s, p);
    FilterMembers(s, p);
    forall x | x in Newest(matching, key, cap) ensures x in s && p(x) {
      assert x in multiset(Newest(matching, key, cap));
      assert x in multiset(matching);
    }
  }
}
