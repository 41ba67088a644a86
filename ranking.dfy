/** Orderings used by the catalogue: listing a set of ids in ascending order
    (Stream.sorted over Integer), and a stable sort by a count, largest
    first (Stream.sorted with a descending comparator, which is stable). */
module Ranking {

  // ---- ascending listing of an id set ----

  predicate StrictlyIncreasing(s: seq<int>)
  {
    forall i, j :: 0 <= i < j < |s| ==> s[i] < s[j]
  }

  /** A set that is not empty has an element to pick. */
  lemma HasElement(s: set<int>)
    requires s != {}
    ensures exists y :: y in s
  {
    if forall y :: y !in s {
      assert false;
    }
  }

  lemma {:induction false} MinExists(s: set<int>)
    requires s != {}
    ensures exists m :: m in s && forall x :: x in s ==> m <= x
  {
    HasElement(s);
    var y :| y in s;
    if s != {y} {
      MinExists(s - {y});
      var m :| m in s - {y} && forall x :: x in s - {y} ==> m <= x;
      var least := if y < m then y else m;
      forall x | x in s ensures least <= x {
        if x != y { assert x in s - {y}; }
      }
    } else {
      assert forall x :: x in s ==> y <= x;
    }
  }

  function Min(s: set<int>): (m: int)
    requires s != {}
    ensures m in s && forall x :: x in s ==> m <= x
  {
    MinExists(s);
    var m :| m in s && forall x :: x in s ==> m <= x; m
  }

  /** The elements of s in ascending order. */
  function SortedIds(s: set<int>): (r: seq<int>)
    ensures |r| == |s|
    ensures forall x :: x in s <==> x in r
    ensures StrictlyIncreasing(r)
    decreases |s|
  {
    if s == {} then []
    else
      var m := Min(s);
      var rest := SortedIds(s - {m});
      IncreasingCons(m, rest);
      [m] + rest
  }

  /** A value below every element of an ascending list may go in front. */
  lemma IncreasingCons(m: int, t: seq<int>)
    requires StrictlyIncreasing(t)
    requires forall x :: x in t ==> m < x
    ensures StrictlyIncreasing([m] + t)
  {
    var r := [m] + t;
    forall i, j | 0 <= i < j < |r| ensures r[i] < r[j] {
      assert r[j] == t[j - 1] && r[j] in t;
      if i > 0 {
        assert r[i] == t[i - 1];
      }
    }
  }

  lemma IncreasingTail(t: seq<int>)
    requires StrictlyIncreasing(t) && t != []
    ensures StrictlyIncreasing(t[1..])
  {
    forall i, j | 0 <= i < j < |t[1..]| ensures t[1..][i] < t[1..][j] {
      assert t[1..][i] == t[i + 1] && t[1..][j] == t[j + 1];
    }
  }

  // ---- stable sort by a key, largest first ----

  predicate NonIncreasing<T>(s: seq<T>, key: T -> int)
  {
    forall i, j :: 0 <= i < j < |s| ==> key(s[i]) >= key(s[j])
  }

  /** x placed before the first element whose key is not larger. */
  function Insert<T>(x: T, t: seq<T>, key: T -> int): (r: seq<T>)
    ensures multiset(r) == multiset(t) + multiset{x}
  {
    if t == [] || key(x) >= key(t[0]) then
      [x] + t
    else
      assert t == [t[0]] + t[1..];
      [t[0]] + Insert(x, t[1..], key)
  }

  lemma {:induction false} InsertNonIncreasing<T>(x: T, t: seq<T>, key: T -> int)
    requires NonIncreasing(t, key)
    ensures NonIncreasing(Insert(x, t, key), key)
  {
    if t != [] && key(x) < key(t[0]) {
      var tail := Insert(x, t[1..], key);
      InsertNonIncreasing(x, t[1..], key);
      var r := [t[0]] + tail;
      forall i, j | 0 <= i < j < |r| ensures key(r[i]) >= key(r[j]) {
        if i == 0 {
          assert r[j] in multiset(tail);
          if r[j] != x {
            assert r[j] in t[1..];
            var k :| 0 <= k < |t[1..]| && t[1..][k] == r[j];
            assert t[k + 1] == r[j];
          }
        } else {
          assert r[i] == tail[i - 1] && r[j] == tail[j - 1];
        }
      }
    }
  }

  /** Insertion sort by key, largest first; equal keys keep their order. */
  function SortDesc<T>(s: seq<T>, key: T -> int): (r: seq<T>)
    ensures multiset(r) == multiset(s)
    ensures NonIncreasing(r, key)
  {
    if s == [] then []
    else
      assert s == [s[0]] + s[1..];
      InsertNonIncreasing(s[0], SortDesc(s[1..], key), key);
      Insert(s[0], SortDesc(s[1..], key), key)
  }

  /** The elements of s whose key is k, in order. */
  function WithKey<T>(s: seq<T>, key: T -> int, k: int): seq<T>
  {
    if s == [] then []
    else (if key(s[0]) == k then [s[0]] else []) + WithKey(s[1..], key, k)
  }

  lemma WithKeyCons<T>(y: T, t: seq<T>, key: T -> int, k: int)
    ensures WithKey([y] + t, key, k) == (if key(y) == k then [y] else []) + WithKey(t, key, k)
  {
    assert ([y] + t)[1..] == t;
  }

  lemma {:induction false} InsertWithKey<T>(x: T, t: seq<T>, key: T -> int, k: int)
    requires NonIncreasing(t, key)
    ensures WithKey(Insert(x, t, key), key, k)
            == (if key(x) == k then [x] else []) + WithKey(t, key, k)
  {
    if t == [] || key(x) >= key(t[0]) {
      WithKeyCons(x, t, key, k);
    } else {
      InsertWithKey(x, t[1..], key, k);
      WithKeyCons(t[0], Insert(x, t[1..], key), key, k);
      if key(x) == k {
        assert key(t[0]) != k;
      }
    }
  }

  /** Stability: sorting does not reorder the elements of any one key. */
  lemma {:induction false} SortDescStable<T>(s: seq<T>, key: T -> int, k: int)
    ensures WithKey(SortDesc(s, key), key, k) == WithKey(s, key, k)
  {
    if s != [] {
      SortDescStable(s[1..], key, k);
      InsertWithKey(s[0], SortDesc(s[1..], key), key, k);
    }
  }

  /** Largest key first, and among equal keys the smaller id first. */
  predicate RankedByKeyThenId(s: seq<int>, key: int -> int)
  {
    forall i, j :: 0 <= i < j < |s| ==> key(s[i]) > key(s[j]) || (key(s[i]) == key(s[j]) && s[i] < s[j])
  }

  /** One id ahead of its successors in the ranking, followed by a ranked
      list, makes a ranked list. */
  lemma RankedCons(y: int, t: seq<int>, key: int -> int)
    requires RankedByKeyThenId(t, key)
    requires forall z :: z in t ==> key(y) > key(z) || (key(y) == key(z) && y < z)
    ensures RankedByKeyThenId([y] + t, key)
  {
    var r := [y] + t;
    forall i, j | 0 <= i < j < |r|
      ensures key(r[i]) > key(r[j]) || (key(r[i]) == key(r[j]) && r[i] < r[j])
    {
      assert r[j] == t[j - 1] && r[j] in t;
      if i > 0 {
        assert r[i] == t[i - 1];
      }
    }
  }

  lemma RankedTail(t: seq<int>, key: int -> int)
    requires RankedByKeyThenId(t, key) && t != []
    ensures RankedByKeyThenId(t[1..], key)
  {
    forall i, j | 0 <= i < j < |t[1..]|
      ensures key(t[1..][i]) > key(t[1..][j]) || (key(t[1..][i]) == key(t[1..][j]) && t[1..][i] < t[1..][j])
    {
      assert t[1..][i] == t[i + 1] && t[1..][j] == t[j + 1];
    }
  }

  lemma {:induction false} InsertRanked(x: int, t: seq<int>, key: int -> int)
    requires RankedByKeyThenId(t, key)
    requires forall y :: y in t ==> x < y
    ensures RankedByKeyThenId(Insert(x, t, key), key)
  {
    if t == [] || key(x) >= key(t[0]) {
      forall z | z in t ensures key(x) > key(z) || (key(x) == key(z) && x < z) {
        var j :| 0 <= j < |t| && t[j] == z;
        if j > 0 {
          assert key(t[0]) >= key(t[j]);
        }
      }
      RankedCons(x, t, key);
    } else {
      RankedTail(t, key);
      assert forall y :: y in t[1..] ==> y in t;
      InsertRanked(x, t[1..], key);
      var tail := Insert(x, t[1..], key);
      forall z | z in tail ensures key(t[0]) > key(z) || (key(t[0]) == key(z) && t[0] < z) {
        assert z in multiset(tail);
        if z != x {
          assert z in t[1..];
          var k :| 0 <= k < |t[1..]| && t[1..][k] == z;
          assert t[k + 1] == z;
        }
      }
      RankedCons(t[0], tail, key);
    }
  }

  /** Sorting an ascending list of ids by key, largest first, ranks by key
      and breaks ties by ascending id: ORDER BY key DESC, id. */
  lemma {:induction false} SortDescRanksAscendingIds(s: seq<int>, key: int -> int)
    requires StrictlyIncreasing(s)
    ensures RankedByKeyThenId(SortDesc(s, key), key)
  {
    if s != [] {
      var rest := s[1..];
      IncreasingTail(s);
      SortDescRanksAscendingIds(rest, key);
      var sorted := SortDesc(rest, key);
      forall y | y in sorted ensures s[0] < y {
        assert y in multiset(sorted);
        assert y in rest;
        var k :| 0 <= k < |rest| && rest[k] == y;
        assert s[k + 1] == y;
      }
      InsertRanked(s[0], sorted, key);
    }
  }

  /** Stream.limit(count). */
  function Take<T>(s: seq<T>, count: nat): (r: seq<T>)
    ensures |r| == if count < |s| then count else |s|
    ensures r <= s
  {
    if count < |s| then s[..count] else s
  }

  // ---- listing map values by key ----

  /** The values of m under keys, in the order of keys. */
  function ValuesAt<V>(keys: seq<int>, m: map<int, V>): (r: seq<V>)
    requires forall i :: 0 <= i < |keys| ==> keys[i] in m
    ensures |r| == |keys| && forall i :: 0 <= i < |keys| ==> r[i] == m[keys[i]]
  {
    if keys == [] then [] else [m[keys[0]]] + ValuesAt(keys[1..], m)
  }

  /** The values of m listed by ascending key. */
  function ValuesInKeyOrder<V>(m: map<int, V>): (r: seq<V>)
    ensures |r| == |m|
    ensures forall i :: 0 <= i < |r| ==> SortedIds(m.Keys)[i] in m && r[i] == m[SortedIds(m.Keys)[i]]
  {
    var ids := SortedIds(m.Keys);
    assert |ids| == |m.Keys| == |m|;
    ValuesAt(ids, m)
  }

  /** Every value of m is listed. */
  lemma EveryValueListed<V>(m: map<int, V>)
    ensures forall k :: k in m ==> m[k] in ValuesInKeyOrder(m)
  {
    var ids := SortedIds(m.Keys);
    forall k | k in m ensures m[k] in ValuesInKeyOrder(m) {
      assert ValuesInKeyOrder(m)[IndexOf(ids, k)] == m[k];
    }
  }

  /** A duplicate-free listing of a set has the set's size. */
  lemma {:induction false} NoDuplicatesListSet(s: seq<int>, t: set<int>)
    requires forall a, b :: 0 <= a < b < |s| ==> s[a] != s[b]
    requires forall x :: x in s <==> x in t
    ensures |s| == |t|
    decreases |s|
  {
    if s == [] {
      assert forall x :: x !in t;
      assert t == {};
    } else {
      var rest := s[1..];
      assert forall x :: x in rest <==> x in t - {s[0]} by {
        forall x ensures x in rest <==> x in t - {s[0]} {
          if x in rest {
            var i :| 0 <= i < |rest| && rest[i] == x;
            assert s[i + 1] == x;
          }
        }
      }
      NoDuplicatesListSet(rest, t - {s[0]});
    }
  }

  /** The position of x in s. */
  function IndexOf(s: seq<int>, x: int): (i: nat)
    requires x in s
    ensures i < |s| && s[i] == x
  {
    if s[0] == x then 0 else 1 + IndexOf(s[1..], x)
  }
}
