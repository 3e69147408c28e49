/**
 * Sequence helpers shared by the record stores: the first-match lookup behind
 * `Array.prototype.find` (and behind `findOne` where at most one document
 * can match), the stable newest-first ordering behind
 * `sort((a, b) => b.t - a.t)`, and the listing of a keyed table in
 * insertion order.
 */
module Collections {
  import opened Wrappers

  /** Index of the first element of `s` whose key is `k`, if there is one. */
  function FirstWith<T, K(==)>(s: seq<T>, key: T -> K, k: K): (r: Option<nat>)
    ensures r.Some? ==> r.value < |s| && key(s[r.value]) == k
    ensures r.Some? ==> forall j :: 0 <= j < r.value ==> key(s[j]) != k
    ensures r.None? <==> forall j :: 0 <= j < |s| ==> key(s[j]) != k
    decreases |s|
  {
    if s == [] then None
    else if key(s[0]) == k then Some(0)
    else
      match FirstWith(s[1..], key, k)
      case None => None
      case Some(i) => Some(i + 1)
  }

  /** Appending an element never changes which earlier element is found first. */
  lemma FirstWithAppend<T, K>(s: seq<T>, x: T, key: T -> K, k: K)
    ensures FirstWith(s, key, k).Some? ==> FirstWith(s + [x], key, k) == FirstWith(s, key, k)
    ensures FirstWith(s, key, k).None? ==>
              FirstWith(s + [x], key, k) == if key(x) == k then Some(|s|) else None
  {
    assert forall j :: 0 <= j < |s| ==> (s + [x])[j] == s[j];
    assert (s + [x])[|s|] == x;
  }

  /** `s` lists its elements newest first, by the timestamp `key` gives each. */
  ghost predicate NewestFirst<T>(s: seq<T>, key: T -> int)
  {
    forall i, j :: 0 <= i < j < |s| ==> key(s[i]) >= key(s[j])
  }

  /** Putting in front of a newest-first list an element at least as new as its head keeps it newest first. */
  lemma ConsNewestFirst<T>(h: T, s: seq<T>, key: T -> int)
    requires NewestFirst(s, key)
    requires s != [] ==> key(h) >= key(s[0])
    ensures NewestFirst([h] + s, key)
  {
    forall i, j | 0 <= i < j < |[h] + s|
      ensures key(([h] + s)[i]) >= key(([h] + s)[j])
    {
      if i == 0 {
        assert ([h] + s)[j] == s[j - 1];
        if j > 1 {
          assert key(s[0]) >= key(s[j - 1]);
        }
      } else {
        assert ([h] + s)[i] == s[i - 1] && ([h] + s)[j] == s[j - 1];
      }
    }
  }

  /** Dropping the newest element of a newest-first list keeps it newest first. */
  lemma TailNewestFirst<T>(s: seq<T>, key: T -> int)
    requires s != [] && NewestFirst(s, key)
    ensures NewestFirst(s[1..], key)
  {
    forall i, j | 0 <= i < j < |s| - 1
      ensures key(s[1..][i]) >= key(s[1..][j])
    {
      assert s[1..][i] == s[i + 1] && s[1..][j] == s[j + 1];
    }
  }

  /**
   * Inserts `x` into a newest-first list before every element that is not
   * newer than it; an element inserted later in the sort came earlier in
   * the input, so ties keep their input order (the sort is stable).
   */
  function InsertNewestFirst<T>(x: T, s: seq<T>, key: T -> int): (r: seq<T>)
    requires NewestFirst(s, key)
    ensures NewestFirst(r, key)
    ensures multiset(r) == multiset(s) + multiset{x}
    ensures r != [] && (r[0] == x || (s != [] && r[0] == s[0]))
    decreases |s|
  {
    if s == [] || key(x) >= key(s[0]) then
      ConsNewestFirst(x, s, key);
      [x] + s
    else
      TailNewestFirst(s, key);
      var rest := InsertNewestFirst(x, s[1..], key);
      assert |s| > 1 ==> key(s[0]) >= key(s[1]);
      ConsNewestFirst(s[0], rest, key);
      assert s == [s[0]] + s[1..];
      [s[0]] + rest
  }

  /** A stable sort into newest-first order: the same elements, newest first. */
  function SortNewestFirst<T>(s: seq<T>, key: T -> int): (r: seq<T>)
    ensures NewestFirst(r, key)
    ensures multiset(r) == multiset(s)
    ensures |r| == |s|
    decreases |s|
  {
    if s == [] then []
    else
      assert s == [s[0]] + s[1..];
      var r := InsertNewestFirst(s[0], SortNewestFirst(s[1..], key), key);
      assert |r| == |multiset(r)|;
      r
  }

  /** A list that is already newest first comes back unchanged. */
  lemma {:induction false} SortKeepsNewestFirst<T>(s: seq<T>, key: T -> int)
    requires NewestFirst(s, key)
    ensures SortNewestFirst(s, key) == s
    decreases |s|
  {
    if s != [] {
      TailNewestFirst(s, key);
      SortKeepsNewestFirst(s[1..], key);
      assert |s| > 1 ==> key(s[0]) >= key(s[1]);
      assert s == [s[0]] + s[1..];
    }
  }

  /** So sorting twice is sorting once. */
  lemma SortIdempotent<T>(s: seq<T>, key: T -> int)
    ensures SortNewestFirst(SortNewestFirst(s, key), key) == SortNewestFirst(s, key)
  {
    SortKeepsNewestFirst(SortNewestFirst(s, key), key);
  }

  /** The elements of `s` whose timestamp is `k`, in their order in `s`. */
  function WithKey<T>(s: seq<T>, key: T -> int, k: int): seq<T>
    decreases |s|
  {
    if s == [] then [] else (if key(s[0]) == k then [s[0]] else []) + WithKey(s[1..], key, k)
  }

  /**
   * Inserting `x` puts it before every element with its timestamp, and
   * leaves the elements with any other timestamp in their order.
   */
  lemma {:induction false} InsertWithKey<T>(x: T, s: seq<T>, key: T -> int, k: int)
    requires NewestFirst(s, key)
    ensures WithKey(InsertNewestFirst(x, s, key), key, k) == (if key(x) == k then [x] else []) + WithKey(s, key, k)
    decreases |s|
  {
    var mine := if key(x) == k then [x] else [];
    if s == [] || key(x) >= key(s[0]) {
      assert ([x] + s)[1..] == s;
      assert WithKey([x] + s, key, k) == mine + WithKey(s, key, k);
    } else {
      TailNewestFirst(s, key);
      InsertWithKey(x, s[1..], key, k);
      var rest := InsertNewestFirst(x, s[1..], key);
      var head := if key(s[0]) == k then [s[0]] else [];
      assert ([s[0]] + rest)[1..] == rest;
      assert WithKey([s[0]] + rest, key, k) == head + WithKey(rest, key, k);
      assert WithKey(s, key, k) == head + WithKey(s[1..], key, k);
      assert head == [] || mine == [];
    }
  }

  /**
   * The sort is stable: for every timestamp, the elements carrying it come
   * out in the order they went in.
   */
  lemma {:induction false} SortWithKey<T>(s: seq<T>, key: T -> int, k: int)
    ensures WithKey(SortNewestFirst(s, key), key, k) == WithKey(s, key, k)
    decreases |s|
  {
    if s != [] {
      SortWithKey(s[1..], key, k);
      InsertWithKey(s[0], SortNewestFirst(s[1..], key), key, k);
    }
  }

  lemma SortStable<T>(s: seq<T>, key: T -> int)
    ensures forall k :: WithKey(SortNewestFirst(s, key), key, k) == WithKey(s, key, k)
  {
    forall k
      ensures WithKey(SortNewestFirst(s, key), key, k) == WithKey(s, key, k)
    {
      SortWithKey(s, key, k);
    }
  }

  /** No two positions of `s` hold the same value. */
  ghost predicate Distinct<T>(s: seq<T>)
  {
    forall i, j :: 0 <= i < j < |s| ==> s[i] != s[j]
  }

  /** The set of the elements of `s`. */
  ghost function Elements<T>(s: seq<T>): set<T>
  {
    set x | x in s
  }

  /** A list without repeats has as many elements as the set of its elements. */
  lemma {:induction false} DistinctSize<T>(s: seq<T>)
    requires Distinct(s)
    ensures |Elements(s)| == |s|
    decreases |s|
  {
    if s != [] {
      var tail := s[1..];
      assert Distinct(tail) by {
        forall i, j | 0 <= i < j < |tail|
          ensures tail[i] != tail[j]
        {
          assert tail[i] == s[i + 1] && tail[j] == s[j + 1];
        }
      }
      DistinctSize(tail);
      assert Elements(s) == {s[0]} + Elements(tail) by {
        assert s == [s[0]] + tail;
      }
      assert s[0] !in Elements(tail) by {
        assert forall j :: 0 <= j < |tail| ==> tail[j] == s[j + 1] && s[j + 1] != s[0];
      }
    }
  }

  /** The values a table holds, listed in the order `order` gives their keys. */
  function InOrder<V>(m: map<nat, V>, order: seq<nat>): (r: seq<V>)
    requires forall k :: k in order ==> k in m
    ensures |r| == |order|
    ensures forall i :: 0 <= i < |order| ==> r[i] == m[order[i]]
    decreases |order|
  {
    if order == [] then [] else [m[order[0]]] + InOrder(m, order[1..])
  }

  /** No two elements of `s` have the same key. */
  ghost predicate DistinctKeys<T, K>(s: seq<T>, key: T -> K)
  {
    forall i, j :: 0 <= i < j < |s| ==> key(s[i]) != key(s[j])
  }
}
