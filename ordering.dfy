/**
 * `versions.sort(key=lambda x: x["created_at"])`, the ordering both version
 * listings apply to the version metadata they read.
 */
module Ordering {
  import opened Wrappers
  import opened Documents

  /** Python's `<=` on str: code point by code point, a proper prefix first. */
  predicate TextLe(a: string, b: string)
    decreases |a|
  {
    a == [] || (b != [] && (a[0] < b[0] || (a[0] == b[0] && TextLe(a[1..], b[1..]))))
  }

  lemma {:induction false} TextLeReflexive(a: string)
    ensures TextLe(a, a)
    decreases |a|
  {
    if a != [] {
      TextLeReflexive(a[1..]);
    }
  }

  lemma {:induction false} TextLeTotal(a: string, b: string)
    ensures TextLe(a, b) || TextLe(b, a)
    decreases |a|
  {
    if a != [] && b != [] && a[0] == b[0] {
      TextLeTotal(a[1..], b[1..]);
    }
  }

  lemma {:induction false} TextLeTransitive(a: string, b: string, c: string)
    requires TextLe(a, b) && TextLe(b, c)
    ensures TextLe(a, c)
    decreases |a|
  {
    if a != [] && b != [] && c != [] && a[0] == b[0] && b[0] == c[0] {
      TextLeTransitive(a[1..], b[1..], c[1..]);
    }
  }

  lemma {:induction false} TextLeAntisymmetric(a: string, b: string)
    requires TextLe(a, b) && TextLe(b, a)
    ensures a == b
    decreases |a|
  {
    if a != [] {
      TextLeAntisymmetric(a[1..], b[1..]);
      assert a == [a[0]] + a[1..] && b == [b[0]] + b[1..];
    }
  }

  /** Why the sort raised: a version without `created_at`, or keys Python cannot compare. */
  datatype SortError = KeyError | TypeError

  const CreatedAtKey := "created_at"

  /** A version whose `created_at` is a string. */
  predicate HasTextKey(m: Metadata) {
    CreatedAtKey in m && m[CreatedAtKey].Text?
  }

  /** The sort key of a version, for versions that have a string one. */
  function CreatedAt(m: Metadata): string {
    if HasTextKey(m) then m[CreatedAtKey].s else ""
  }

  /** Ordered by `key` as Python compares strings. */
  predicate SortedBy<T>(vs: seq<T>, key: T -> string) {
    forall i, j :: 0 <= i < j < |vs| ==> TextLe(key(vs[i]), key(vs[j]))
  }

  predicate Sorted(vs: seq<Metadata>) {
    SortedBy(vs, CreatedAt)
  }

  /** Putting in front an element no greater than any other keeps a sequence sorted. */
  lemma SortedCons<T>(a: T, vs: seq<T>, key: T -> string)
    requires SortedBy(vs, key)
    requires forall j :: 0 <= j < |vs| ==> TextLe(key(a), key(vs[j]))
    ensures SortedBy([a] + vs, key)
  {
    var r := [a] + vs;
    forall i, j | 0 <= i < j < |r|
      ensures TextLe(key(r[i]), key(r[j]))
    {
      assert r[j] == vs[j - 1];
      if i > 0 {
        assert r[i] == vs[i - 1];
      }
    }
  }

  /** Inserts `m` after every element whose key is not greater, so equal keys keep their order. */
  function Insert<T>(vs: seq<T>, m: T, key: T -> string): (r: seq<T>)
    requires SortedBy(vs, key)
    ensures SortedBy(r, key)
    ensures multiset(r) == multiset(vs) + multiset{m}
  {
    if vs == [] then [m]
    else if !TextLe(key(vs[0]), key(m)) then
      TextLeTotal(key(vs[0]), key(m));
      forall j | 0 <= j < |vs|
        ensures TextLe(key(m), key(vs[j]))
      {
        if j > 0 {
          TextLeTransitive(key(m), key(vs[0]), key(vs[j]));
        }
      }
      SortedCons(m, vs, key);
      [m] + vs
    else
      var rest := Insert(vs[1..], m, key);
      assert vs == [vs[0]] + vs[1..];
      forall j | 0 <= j < |rest|
        ensures TextLe(key(vs[0]), key(rest[j]))
      {
        assert rest[j] in multiset(rest);
        if rest[j] != m {
          assert rest[j] in multiset(vs[1..]);
          var i :| 0 <= i < |vs[1..]| && vs[1..][i] == rest[j];
          assert vs[i + 1] == rest[j];
        }
      }
      SortedCons(vs[0], rest, key);
      [vs[0]] + rest
  }

  /** The elements whose key is `k`, in their order in `vs`. */
  function WithKey<T>(vs: seq<T>, key: T -> string, k: string): seq<T> {
    if vs == [] then []
    else (if key(vs[0]) == k then [vs[0]] else []) + WithKey(vs[1..], key, k)
  }

  lemma {:induction false} WithKeyAppend<T>(vs: seq<T>, x: T, key: T -> string, k: string)
    ensures WithKey(vs + [x], key, k) == WithKey(vs, key, k) + (if key(x) == k then [x] else [])
    decreases |vs|
  {
    if vs != [] {
      assert (vs + [x])[1..] == vs[1..] + [x];
      WithKeyAppend(vs[1..], x, key, k);
    }
  }

  lemma {:induction false} WithKeyNone<T>(vs: seq<T>, key: T -> string, k: string)
    requires forall j :: 0 <= j < |vs| ==> key(vs[j]) != k
    ensures WithKey(vs, key, k) == []
    decreases |vs|
  {
    if vs != [] {
      WithKeyNone(vs[1..], key, k);
    }
  }

  /** No element of a sorted sequence whose first key is above `m`'s has `m`'s key. */
  lemma KeyAbsent<T>(vs: seq<T>, m: T, key: T -> string)
    requires SortedBy(vs, key) && vs != [] && !TextLe(key(vs[0]), key(m))
    ensures forall j :: 0 <= j < |vs| ==> key(vs[j]) != key(m)
  {
    forall j | 0 <= j < |vs|
      ensures key(vs[j]) != key(m)
    {
      if j == 0 {
        TextLeReflexive(key(m));
      } else {
        assert TextLe(key(vs[0]), key(vs[j]));
      }
    }
  }

  /** Insert puts `m` in front when the first key is above its own. */
  lemma InsertFrontStable<T>(vs: seq<T>, m: T, key: T -> string, k: string)
    requires SortedBy(vs, key) && vs != [] && !TextLe(key(vs[0]), key(m))
    ensures WithKey(Insert(vs, m, key), key, k) == WithKey(vs, key, k) + (if key(m) == k then [m] else [])
  {
    var r := [m] + vs;
    assert Insert(vs, m, key) == r;
    assert r[1..] == vs;
    if key(m) == k {
      KeyAbsent(vs, m, key);
      WithKeyNone(vs, key, k);
    }
  }

  /** Insert keeps the first element in front when its key is not above `m`'s. */
  lemma InsertSkips<T>(vs: seq<T>, m: T, key: T -> string)
    requires SortedBy(vs, key) && vs != [] && TextLe(key(vs[0]), key(m))
    ensures Insert(vs, m, key) == [vs[0]] + Insert(vs[1..], m, key)
  {
  }

  /** Filtering commutes with putting one element in front. */
  lemma WithKeyCons<T>(x: T, vs: seq<T>, rest: seq<T>, key: T -> string, k: string, tail: seq<T>)
    requires WithKey(rest, key, k) == WithKey(vs, key, k) + tail
    ensures WithKey([x] + rest, key, k) == WithKey([x] + vs, key, k) + tail
  {
    assert ([x] + rest)[1..] == rest;
    assert ([x] + vs)[1..] == vs;
  }

  /** Insert is stable: `m` comes after every element that has its key. */
  lemma {:induction false} InsertStable<T>(vs: seq<T>, m: T, key: T -> string, k: string)
    requires SortedBy(vs, key)
    ensures WithKey(Insert(vs, m, key), key, k) == WithKey(vs, key, k) + (if key(m) == k then [m] else [])
    decreases |vs|
  {
    if vs == [] {
    } else if !TextLe(key(vs[0]), key(m)) {
      InsertFrontStable(vs, m, key, k);
    } else {
      InsertStable(vs[1..], m, key, k);
      InsertSkips(vs, m, key);
      WithKeyCons(vs[0], vs[1..], Insert(vs[1..], m, key), key, k, if key(m) == k then [m] else []);
      assert [vs[0]] + vs[1..] == vs;
    }
  }

  /** One step of the insertion sort keeps the versions of each key in listing order. */
  lemma InsertNext(sorted: seq<Metadata>, vs: seq<Metadata>, i: nat)
    requires Sorted(sorted) && i < |vs|
    requires forall k :: WithKey(sorted, CreatedAt, k) == WithKey(vs[..i], CreatedAt, k)
    ensures forall k :: WithKey(Insert(sorted, vs[i], CreatedAt), CreatedAt, k) == WithKey(vs[..i + 1], CreatedAt, k)
  {
    assert vs[..i + 1] == vs[..i] + [vs[i]];
    forall k
      ensures WithKey(Insert(sorted, vs[i], CreatedAt), CreatedAt, k) == WithKey(vs[..i + 1], CreatedAt, k)
    {
      InsertStable(sorted, vs[i], CreatedAt, k);
      WithKeyAppend(vs[..i], vs[i], CreatedAt, k);
    }
  }

  /** Insertion sort by `created_at`: sorted, a permutation, and stable. */
  method InsertAll(vs: seq<Metadata>) returns (sorted: seq<Metadata>)
    ensures Sorted(sorted) && multiset(sorted) == multiset(vs)
    ensures forall k :: WithKey(sorted, CreatedAt, k) == WithKey(vs, CreatedAt, k)
  {
    sorted := [];
    var i := 0;
    while i < |vs|
      invariant 0 <= i <= |vs|
      invariant Sorted(sorted) && multiset(sorted) == multiset(vs[..i])
      invariant forall k :: WithKey(sorted, CreatedAt, k) == WithKey(vs[..i], CreatedAt, k)
    {
      InsertNext(sorted, vs, i);
      sorted := Insert(sorted, vs[i], CreatedAt);
      assert vs[..i + 1] == vs[..i] + [vs[i]];
      i := i + 1;
    }
    assert vs[..|vs|] == vs;
  }

  /**
   * Sorts the versions by `created_at`. The keys are looked up first, so a
   * version without one raises KeyError; comparing keys that are not all
   * strings raises TypeError, which needs at least two versions.
   */
  method SortByCreatedAt(vs: seq<Metadata>) returns (r: Result<seq<Metadata>, SortError>)
    ensures r == Failure(KeyError) <==> exists i :: 0 <= i < |vs| && CreatedAtKey !in vs[i]
    ensures r == Failure(TypeError) <==>
      (forall i :: 0 <= i < |vs| ==> CreatedAtKey in vs[i]) && |vs| >= 2 &&
      exists i :: 0 <= i < |vs| && !HasTextKey(vs[i])
    ensures r.Success? ==> Sorted(r.value) && multiset(r.value) == multiset(vs)
    ensures r.Success? ==> forall k :: WithKey(r.value, CreatedAt, k) == WithKey(vs, CreatedAt, k)
  {
    var i := 0;
    var allText := true;
    while i < |vs|
      invariant 0 <= i <= |vs|
      invariant forall j :: 0 <= j < i ==> CreatedAtKey in vs[j]
      invariant allText <==> forall j :: 0 <= j < i ==> HasTextKey(vs[j])
    {
      if CreatedAtKey !in vs[i] {
        return Failure(KeyError);
      }
      allText := allText && vs[i][CreatedAtKey].Text?;
      i := i + 1;
    }
    if !allText && |vs| >= 2 {
      return Failure(TypeError);
    }
    var sorted := InsertAll(vs);
    r := Success(sorted);
  }
}
