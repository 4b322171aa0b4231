/** The ranking shared by the score screens: `List.sort` with
    `Comparator.comparingInt(score).reversed()`, which is a stable sort into
    descending score order, followed by `subList(0, min(n, size))`. */
module Ranking {

  /** Every entry scores at least as much as every later one. */
  ghost predicate Descending<T>(s: seq<T>, key: T -> int) {
    forall i, j :: 0 <= i < j < |s| ==> key(s[i]) >= key(s[j])
  }

  /** The entries of `s` whose score is `k`, in their order in `s`. */
  function WithKey<T>(s: seq<T>, key: T -> int, k: int): (r: seq<T>)
    ensures |r| <= |s|
    ensures forall i :: 0 <= i < |r| ==> key(r[i]) == k
  {
    if s == [] then []
    else (if key(s[0]) == k then [s[0]] else []) + WithKey(s[1..], key, k)
  }

  /** `x` placed into a descending list before the first entry that does
      not score more than it. */
  function Insert<T>(x: T, s: seq<T>, key: T -> int): (r: seq<T>)
    ensures |r| == |s| + 1
  {
    if s == [] || key(s[0]) <= key(x) then [x] + s
    else [s[0]] + Insert(x, s[1..], key)
  }

  /** Inserting adds `x` and loses nothing. */
  lemma {:induction false} InsertPermutes<T>(x: T, s: seq<T>, key: T -> int)
    ensures multiset(Insert(x, s, key)) == multiset(s) + multiset{x}
    decreases |s|
  {
    if s != [] && key(s[0]) > key(x) {
      InsertPermutes(x, s[1..], key);
      assert s == [s[0]] + s[1..];
    }
  }

  /** The stable descending sort, as an insertion sort. */
  function SortDescending<T>(s: seq<T>, key: T -> int): (r: seq<T>)
    ensures |r| == |s|
  {
    if s == [] then []
    else Insert(s[0], SortDescending(s[1..], key), key)
  }

  /** The sorted list is a permutation of the list. */
  lemma {:induction false} SortPermutes<T>(s: seq<T>, key: T -> int)
    ensures multiset(SortDescending(s, key)) == multiset(s)
    decreases |s|
  {
    if s != [] {
      SortPermutes(s[1..], key);
      InsertPermutes(s[0], SortDescending(s[1..], key), key);
      assert s == [s[0]] + s[1..];
    }
  }

  lemma {:induction false} InsertDescending<T>(x: T, s: seq<T>, key: T -> int)
    requires Descending(s, key)
    ensures Descending(Insert(x, s, key), key)
    decreases |s|
  {
    if s != [] && key(s[0]) > key(x) {
      InsertDescending(x, s[1..], key);
      InsertPermutes(x, s[1..], key);
      var r := Insert(x, s, key);
      var tail := Insert(x, s[1..], key);
      assert r == [s[0]] + tail;
      forall j | 0 < j < |r|
        ensures key(r[0]) >= key(r[j])
      {
        assert r[j] in multiset(tail);
        assert r[j] in multiset(s[1..]) + multiset{x};
        if r[j] != x {
          assert r[j] in s[1..];
        }
      }
    }
  }

  /** The tail of a descending list is descending. */
  lemma DescendingTail<T>(s: seq<T>, key: T -> int)
    requires s != [] && Descending(s, key)
    ensures Descending(s[1..], key)
  {
    forall i, j | 0 <= i < j < |s| - 1
      ensures key(s[1..][i]) >= key(s[1..][j])
    {
      assert s[1..][i] == s[i + 1] && s[1..][j] == s[j + 1];
    }
  }

  /** Inserting into a descending list puts `x` after every entry that
      outscores it and before every other: the entries of any one score
      keep their order, `x` first among its equals. */
  lemma {:induction false} InsertWithKey<T>(x: T, s: seq<T>, key: T -> int, k: int)
    requires Descending(s, key)
    ensures WithKey(Insert(x, s, key), key, k) == (if key(x) == k then [x] else []) + WithKey(s, key, k)
    decreases |s|
  {
    var mine: seq<T> := if key(x) == k then [x] else [];
    if s == [] || key(s[0]) <= key(x) {
      var r := [x] + s;
      assert Insert(x, s, key) == r;
      assert r[0] == x && r[1..] == s;
      assert WithKey(r, key, k) == mine + WithKey(s, key, k);
    } else {
      var tail := Insert(x, s[1..], key);
      var head: seq<T> := if key(s[0]) == k then [s[0]] else [];
      DescendingTail(s, key);
      InsertWithKey(x, s[1..], key, k);
      var r := [s[0]] + tail;
      assert Insert(x, s, key) == r;
      assert r[0] == s[0] && r[1..] == tail;
      assert WithKey(r, key, k) == head + (mine + WithKey(s[1..], key, k));
      assert WithKey(s, key, k) == head + WithKey(s[1..], key, k);
      if head == [] {
        assert WithKey(r, key, k) == mine + WithKey(s[1..], key, k);
        assert WithKey(s, key, k) == WithKey(s[1..], key, k);
      } else {
        assert mine == [];
        assert WithKey(r, key, k) == head + WithKey(s[1..], key, k);
      }
    }
  }

  /** The sorted list is in descending order. */
  lemma {:induction false} SortIsDescending<T>(s: seq<T>, key: T -> int)
    ensures Descending(SortDescending(s, key), key)
    decreases |s|
  {
    if s != [] {
      SortIsDescending(s[1..], key);
      InsertDescending(s[0], SortDescending(s[1..], key), key);
    }
  }

  /** The sort is stable: the entries of any one score are in the order
      they had before. */
  lemma {:induction false} SortIsStable<T>(s: seq<T>, key: T -> int, k: int)
    ensures WithKey(SortDescending(s, key), key, k) == WithKey(s, key, k)
    decreases |s|
  {
    if s != [] {
      SortIsStable(s[1..], key, k);
      SortIsDescending(s[1..], key);
      InsertWithKey(s[0], SortDescending(s[1..], key), key, k);
    }
  }

  /** A list already in descending order is left as it is. */
  lemma {:induction false} SortOfDescending<T>(s: seq<T>, key: T -> int)
    requires Descending(s, key)
    ensures SortDescending(s, key) == s
    decreases |s|
  {
    if s != [] {
      SortOfDescending(s[1..], key);
      assert s == [s[0]] + s[1..];
      if |s| > 1 {
        assert key(s[1]) <= key(s[0]);
      }
    }
  }

  /** `subList(0, Math.min(n, size))`: the first `n` entries, or all of
      them when there are fewer. */
  function Top<T>(s: seq<T>, n: nat): (r: seq<T>)
    ensures |r| == if n < |s| then n else |s|
    ensures r == s[..|r|]
  {
    if n < |s| then s[..n] else s
  }

  /** The first `n` entries of a descending list are the `n` best: each of
      them scores at least as much as every entry left out. */
  lemma TopIsBest<T>(s: seq<T>, key: T -> int, n: nat)
    requires Descending(s, key)
    ensures Descending(Top(s, n), key)
    ensures forall i, j :: 0 <= i < |Top(s, n)| <= j < |s| ==> key(Top(s, n)[i]) >= key(s[j])
  {
  }
}
