/**
 * Newest-first ordering by a timestamp key, as the screens obtain it from
 * `Array.prototype.sort` with the comparator `(a, b) => key(b) - key(a)`.
 * That sort is stable, so items with equal keys keep their relative order;
 * an insertion sort that places each item before the ones not newer than it
 * has the same result.
 */
module Order {

  /** Keys are non-increasing from front to back. */
  ghost predicate NewestFirst<T>(s: seq<T>, key: T -> int) {
    forall i, j :: 0 <= i < j < |s| ==> key(s[i]) >= key(s[j])
  }

  /** Inserts `x` into a newest-first sequence in front of the first item that
      is not newer than it. */
  function InsertNewest<T(==)>(x: T, s: seq<T>, key: T -> int): (r: seq<T>)
    requires NewestFirst(s, key)
    ensures multiset(r) == multiset(s) + multiset{x}
    ensures NewestFirst(r, key)
    ensures r[0] == x || (s != [] && r[0] == s[0])
  {
    if s == [] || key(s[0]) <= key(x) then
      PrependNewest(x, s, key);
      [x] + s
    else
      TailNewest(s, key);
      var rest := InsertNewest(x, s[1..], key);
      assert key(rest[0]) <= key(s[0]) by {
        assert |s| > 1 ==> s[1..][0] == s[1];
      }
      PrependNewest(s[0], rest, key);
      assert multiset([s[0]] + rest) == multiset(s) + multiset{x} by {
        assert s == [s[0]] + s[1..];
      }
      [s[0]] + rest
  }

  /** Dropping the front of a newest-first sequence keeps it newest-first. */
  lemma TailNewest<T>(s: seq<T>, key: T -> int)
    requires NewestFirst(s, key) && s != []
    ensures NewestFirst(s[1..], key)
  {
    var t := s[1..];
    forall i, j | 0 <= i < j < |t|
      ensures key(t[i]) >= key(t[j])
    {
      assert t[i] == s[i + 1] && t[j] == s[j + 1];
    }
  }

  /** An item at least as new as the front of a newest-first sequence can go
      in front of it. */
  lemma PrependNewest<T>(h: T, s: seq<T>, key: T -> int)
    requires NewestFirst(s, key)
    requires s != [] ==> key(h) >= key(s[0])
    ensures NewestFirst([h] + s, key)
  {
    var r := [h] + s;
    forall i, j | 0 <= i < j < |r|
      ensures key(r[i]) >= key(r[j])
    {
      assert r[j] == s[j - 1];
      if i == 0 {
        assert key(s[0]) >= key(s[j - 1]);
      } else {
        assert r[i] == s[i - 1];
      }
    }
  }

  /** `[...s].sort((a, b) => key(b) - key(a))`: a newest-first permutation. */
  function SortNewestFirst<T(==)>(s: seq<T>, key: T -> int): (r: seq<T>)
    ensures multiset(r) == multiset(s)
    ensures |r| == |s|
    ensures NewestFirst(r, key)
  {
    if s == [] then []
    else
      var r := InsertNewest(s[0], SortNewestFirst(s[1..], key), key);
      assert multiset(r) == multiset(s) by {
        assert s == [s[0]] + s[1..];
      }
      assert |r| == |s| by {
        assert |r| == |multiset(r)| && |s| == |multiset(s)|;
      }
      r
  }

  /** Sorting a sequence that is already newest first leaves it as it is,
      equal keys included. */
  lemma {:induction false} SortOfNewestFirst<T>(s: seq<T>, key: T -> int)
    requires NewestFirst(s, key)
    ensures SortNewestFirst(s, key) == s
  {
    if s != [] {
      TailNewest(s, key);
      SortOfNewestFirst(s[1..], key);
      assert s == [s[0]] + s[1..];
    }
  }

  /** The items of `s` whose key is `k`, in their order in `s`. */
  function WithKey<T>(s: seq<T>, key: T -> int, k: int): (r: seq<T>)
    ensures |r| <= |s|
    ensures forall i :: 0 <= i < |r| ==> key(r[i]) == k
  {
    if s == [] then []
    else (if key(s[0]) == k then [s[0]] else []) + WithKey(s[1..], key, k)
  }

  /** `WithKey` of a sequence with one more item in front. */
  lemma WithKeyCons<T>(a: T, t: seq<T>, key: T -> int, k: int)
    ensures WithKey([a] + t, key, k) == (if key(a) == k then [a] else []) + WithKey(t, key, k)
  {
    assert ([a] + t)[1..] == t;
  }

  /** Inserting `x` puts it in front of every item with the same key. */
  lemma {:induction false} InsertNewestWithKey<T>(x: T, s: seq<T>, key: T -> int, k: int)
    requires NewestFirst(s, key)
    ensures WithKey(InsertNewest(x, s, key), key, k)
      == (if key(x) == k then [x] else []) + WithKey(s, key, k)
  {
    if s == [] || key(s[0]) <= key(x) {
      WithKeyCons(x, s, key, k);
    } else {
      TailNewest(s, key);
      var rest := InsertNewest(x, s[1..], key);
      assert InsertNewest(x, s, key) == [s[0]] + rest;
      WithKeyCons(s[0], rest, key, k);
      InsertNewestWithKey(x, s[1..], key, k);
      var head := if key(s[0]) == k then [s[0]] else [];
      var mid := if key(x) == k then [x] else [];
      assert head == [] || mid == [];
      assert head + (mid + WithKey(s[1..], key, k)) == mid + (head + WithKey(s[1..], key, k));
    }
  }

  /** The sort is stable: for every key, the items with that key come out in
      the order they went in. */
  lemma {:induction false} SortStable<T>(s: seq<T>, key: T -> int, k: int)
    ensures WithKey(SortNewestFirst(s, key), key, k) == WithKey(s, key, k)
  {
    if s != [] {
      SortStable(s[1..], key, k);
      InsertNewestWithKey(s[0], SortNewestFirst(s[1..], key), key, k);
    }
  }
}
