/** Sequence utilities shared by the group-by and delta tables: a descending
    sort on a score (pandas `sort_values(ascending=False)`), `head(n)`, and
    the set of keys of a sequence of keyed records. */
module Seqs {

  function Min(a: nat, b: nat): nat {
    if a <= b then a else b
  }

  /** Non-increasing in `score`; nothing is said about the order of ties. */
  predicate SortedDesc<T>(s: seq<T>, score: T -> real) {
    forall i, j :: 0 <= i < j < |s| ==> score(s[i]) >= score(s[j])
  }

  function Insert<T>(x: T, s: seq<T>, score: T -> real): (r: seq<T>)
    requires SortedDesc(s, score)
    ensures SortedDesc(r, score)
    ensures multiset(r) == multiset(s) + multiset{x}
  {
    if s == [] then [x]
    else if score(x) >= score(s[0]) then [x] + s
    else
      var rest := Insert(x, s[1..], score);
      assert s == [s[0]] + s[1..];
      BelowHead(x, s, rest, score);
      [s[0]] + rest
  }

  /** What is inserted behind the head of `s` scores no higher than the head. */
  lemma BelowHead<T>(x: T, s: seq<T>, rest: seq<T>, score: T -> real)
    requires s != [] && SortedDesc(s, score) && score(x) < score(s[0])
    requires multiset(rest) == multiset(s[1..]) + multiset{x}
    ensures forall i :: 0 <= i < |rest| ==> score(rest[i]) <= score(s[0])
  {
    forall i | 0 <= i < |rest| ensures score(rest[i]) <= score(s[0]) {
      assert rest[i] in multiset(rest);
      if rest[i] != x {
        assert rest[i] in multiset(s[1..]);
        var j :| 0 <= j < |s[1..]| && s[1..][j] == rest[i];
        assert s[j + 1] == rest[i];
      }
    }
  }

  /** Insertion sort into non-increasing `score` order. */
  function SortDesc<T>(s: seq<T>, score: T -> real): (r: seq<T>)
    ensures SortedDesc(r, score)
    ensures multiset(r) == multiset(s)
  {
    if s == [] then []
    else
      assert s == [s[0]] + s[1..];
      Insert(s[0], SortDesc(s[1..], score), score)
  }

  /** pandas `head(n)`: the first `n` elements, or all of them. */
  function Take<T>(s: seq<T>, n: nat): (r: seq<T>)
    ensures |r| == Min(n, |s|)
    ensures r == s[..|r|]
  {
    if n <= |s| then s[..n] else s
  }

  /** The set of keys carried by the elements of `s`. */
  function KeysOf<T, K>(s: seq<T>, key: T -> K): set<K> {
    if s == [] then {} else KeysOf(s[..|s| - 1], key) + {key(s[|s| - 1])}
  }

  /** No key occurs twice. */
  predicate UniqueBy<T, K(==)>(s: seq<T>, key: T -> K) {
    forall i, j :: 0 <= i < j < |s| ==> key(s[i]) != key(s[j])
  }

  lemma {:induction false} KeysOfMembers<T, K>(s: seq<T>, key: T -> K, k: K)
    ensures k in KeysOf(s, key) <==> exists i :: 0 <= i < |s| && key(s[i]) == k
  {
    if s != [] {
      var p := s[..|s| - 1];
      KeysOfMembers(p, key, k);
      if k in KeysOf(p, key) {
        var i :| 0 <= i < |p| && key(p[i]) == k;
        assert s[i] == p[i];
      }
      if i :| 0 <= i < |s| && key(s[i]) == k {
        if i < |p| {
          assert p[i] == s[i];
        }
      }
    }
  }

  /** Keys are unique exactly when there are as many keys as elements. */
  lemma {:induction false} UniqueIffCard<T, K>(s: seq<T>, key: T -> K)
    ensures |KeysOf(s, key)| <= |s|
    ensures UniqueBy(s, key) <==> |KeysOf(s, key)| == |s|
  {
    if s != [] {
      var p := s[..|s| - 1];
      var x := s[|s| - 1];
      UniqueIffCard(p, key);
      KeysOfMembers(p, key, key(x));
      if key(x) in KeysOf(p, key) {
        var i :| 0 <= i < |p| && key(p[i]) == key(x);
        assert key(s[i]) == key(s[|s| - 1]);
        assert !UniqueBy(s, key);
      } else {
        if UniqueBy(s, key) {
          assert UniqueBy(p, key) by {
            forall i, j | 0 <= i < j < |p| ensures key(p[i]) != key(p[j]) {
              assert p[i] == s[i] && p[j] == s[j];
            }
          }
        }
        if UniqueBy(p, key) {
          forall i, j | 0 <= i < j < |s| ensures key(s[i]) != key(s[j]) {
            if j < |p| {
              assert p[i] == s[i] && p[j] == s[j];
            } else {
              assert s[i] == p[i];
            }
          }
        }
      }
    }
  }

  lemma KeysOfSubset<T, K>(a: seq<T>, b: seq<T>, key: T -> K)
    requires multiset(a) <= multiset(b)
    ensures KeysOf(a, key) <= KeysOf(b, key)
  {
    forall k | k in KeysOf(a, key) ensures k in KeysOf(b, key) {
      KeysOfMembers(a, key, k);
      var i :| 0 <= i < |a| && key(a[i]) == k;
      assert a[i] in multiset(a);
      assert a[i] in multiset(b);
      var j :| 0 <= j < |b| && b[j] == a[i];
      KeysOfMembers(b, key, k);
    }
  }

  /** A permutation carries the same keys, and keeps them unique. */
  lemma PermutationKeys<T, K>(a: seq<T>, b: seq<T>, key: T -> K)
    requires multiset(a) == multiset(b)
    ensures KeysOf(a, key) == KeysOf(b, key)
    ensures UniqueBy(a, key) ==> UniqueBy(b, key)
  {
    KeysOfSubset(a, b, key);
    KeysOfSubset(b, a, key);
    assert |a| == |multiset(a)| == |b|;
    UniqueIffCard(a, key);
    UniqueIffCard(b, key);
  }

  lemma KeysOfAppend<T, K>(a: seq<T>, b: seq<T>, key: T -> K)
    ensures KeysOf(a + b, key) == KeysOf(a, key) + KeysOf(b, key)
  {
    var ab, ka, kb := KeysOf(a + b, key), KeysOf(a, key), KeysOf(b, key);
    forall k ensures k in ab <==> k in ka || k in kb {
      KeysOfMembers(a + b, key, k);
      KeysOfMembers(a, key, k);
      KeysOfMembers(b, key, k);
      if i :| 0 <= i < |a + b| && key((a + b)[i]) == k {
        if i >= |a| {
          assert (a + b)[i] == b[i - |a|];
        } else {
          assert (a + b)[i] == a[i];
        }
      }
      if i :| 0 <= i < |a| && key(a[i]) == k {
        assert (a + b)[i] == a[i];
      }
      if i :| 0 <= i < |b| && key(b[i]) == k {
        assert (a + b)[|a| + i] == b[i];
      }
    }
    UnionByMembers(ab, ka, kb);
  }

  lemma UnionByMembers<K>(x: set<K>, y: set<K>, z: set<K>)
    requires forall k :: k in x <==> k in y || k in z
    ensures x == y + z
  {
  }

  /** Two sequences with unique keys and no key in common append to one with unique keys. */
  lemma UniqueAppend<T, K>(a: seq<T>, b: seq<T>, key: T -> K)
    requires UniqueBy(a, key) && UniqueBy(b, key)
    requires KeysOf(a, key) !! KeysOf(b, key)
    ensures UniqueBy(a + b, key)
  {
    forall i, j | 0 <= i < j < |a + b| ensures key((a + b)[i]) != key((a + b)[j]) {
      if i < |a| && j >= |a| {
        KeysOfMembers(a, key, key(a[i]));
        KeysOfMembers(b, key, key(b[j - |a|]));
      }
    }
  }
}
