/**
 * The stable ordering both packers take from the platform (OrderBy and
 * OrderByDescending): an insertion sort by a real key, stable, so that
 * records with equal keys keep their input order.
 */
module StableSort {

  ghost predicate SortedBy<T>(s: seq<T>, key: T -> real)
  {
    forall i, j :: 0 <= i < j < |s| ==> key(s[i]) <= key(s[j])
  }

  /** The records of s whose key is v, in the order of s. */
  function WithKey<T>(s: seq<T>, key: T -> real, v: real): (r: seq<T>)
    ensures forall i :: 0 <= i < |r| ==> key(r[i]) == v
    ensures |r| <= |s|
  {
    if s == [] then [] else (if key(s[0]) == v then [s[0]] else []) + WithKey(s[1..], key, v)
  }

  /** Inserts x in front of the first record whose key is not below key(x). */
  function Insert<T>(x: T, s: seq<T>, key: T -> real): (r: seq<T>)
    ensures |r| == |s| + 1
    ensures multiset(r) == multiset(s) + multiset{x}
    ensures key(r[0]) == key(x) || (s != [] && key(r[0]) == key(s[0]))
  {
    if s == [] || key(x) <= key(s[0]) then [x] + s
    else
      var rest := Insert(x, s[1..], key);
      assert s == [s[0]] + s[1..];
      [s[0]] + rest
  }

  /** Inserting into a sorted sequence keeps it sorted. */
  lemma {:induction false} InsertSorted<T>(x: T, s: seq<T>, key: T -> real)
    requires SortedBy(s, key)
    ensures SortedBy(Insert(x, s, key), key)
  {
    if s == [] || key(x) <= key(s[0]) {
      SortedCons(x, s, key);
    } else {
      SortedTail(s, key);
      InsertSorted(x, s[1..], key);
      SortedCons(s[0], Insert(x, s[1..], key), key);
    }
  }

  lemma SortedTail<T>(s: seq<T>, key: T -> real)
    requires s != []
    ensures SortedBy(s, key) ==> SortedBy(s[1..], key)
  {
  }

  /** A record no heavier than the head of a sorted sequence can go in front of it. */
  lemma SortedCons<T>(x: T, s: seq<T>, key: T -> real)
    ensures SortedBy(s, key) && (s != [] ==> key(x) <= key(s[0])) ==> SortedBy([x] + s, key)
  {
    if SortedBy(s, key) && (s != [] ==> key(x) <= key(s[0])) {
      var r := [x] + s;
      forall i, j | 0 <= i < j < |r|
        ensures key(r[i]) <= key(r[j])
      {
        if i == 0 {
          assert key(s[0]) <= key(s[j - 1]) || j == 1;
        }
      }
    }
  }

  /** Ascending by key; equal keys keep their input order. */
  function SortBy<T>(s: seq<T>, key: T -> real): (r: seq<T>)
    ensures |r| == |s|
    ensures multiset(r) == multiset(s)
    ensures SortedBy(r, key)
  {
    if s == [] then []
    else
      assert s == [s[0]] + s[1..];
      InsertSorted(s[0], SortBy(s[1..], key), key);
      Insert(s[0], SortBy(s[1..], key), key)
  }

  lemma WithKeyCons<T>(h: T, t: seq<T>, key: T -> real, v: real)
    ensures WithKey([h] + t, key, v) == (if key(h) == v then [h] else []) + WithKey(t, key, v)
  {
    assert ([h] + t)[1..] == t;
  }

  lemma {:induction false} InsertWithKey<T>(x: T, s: seq<T>, key: T -> real, v: real)
    ensures WithKey(Insert(x, s, key), key, v) == (if key(x) == v then [x] else []) + WithKey(s, key, v)
  {
    if s == [] || key(x) <= key(s[0]) {
      WithKeyCons(x, s, key, v);
    } else {
      var rest := Insert(x, s[1..], key);
      var w := WithKey(s[1..], key, v);
      var kx := if key(x) == v then [x] else [];
      var k0 := if key(s[0]) == v then [s[0]] else [];
      assert WithKey(Insert(x, s, key), key, v) == k0 + WithKey(rest, key, v) by {
        assert Insert(x, s, key) == [s[0]] + rest;
        WithKeyCons(s[0], rest, key, v);
      }
      assert WithKey(rest, key, v) == kx + w by {
        InsertWithKey(x, s[1..], key, v);
      }
      assert WithKey(s, key, v) == k0 + w by {
        assert s == [s[0]] + s[1..];
        WithKeyCons(s[0], s[1..], key, v);
      }
      assert k0 + (kx + w) == kx + (k0 + w) by {
        if key(s[0]) == v {
          assert key(x) != v;
          assert kx == [];
        } else {
          assert k0 == [];
        }
      }
    }
  }

  /** Stability: for every key value, the records carrying it appear in input order. */
  lemma {:induction false} SortIsStable<T>(s: seq<T>, key: T -> real, v: real)
    ensures WithKey(SortBy(s, key), key, v) == WithKey(s, key, v)
  {
    if s != [] {
      SortIsStable(s[1..], key, v);
      InsertWithKey(s[0], SortBy(s[1..], key), key, v);
    }
  }
}
