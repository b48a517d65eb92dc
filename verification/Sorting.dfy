/**
 The contracts of the standard library's slice algorithms that the symbol table, the alias
 list and the manifest use: a stable `sort_by_key`, `dedup_by_key` and `binary_search_by_key`.
 Keys are compared through a total order, so one definition serves addresses and strings.
 */
module Sorting {

  import opened Wrappers

  ghost predicate TotalOrder<K(!new)>(leq: (K, K) -> bool) {
    && (forall a :: leq(a, a))
    && (forall a, b :: leq(a, b) || leq(b, a))
    && (forall a, b :: leq(a, b) && leq(b, a) ==> a == b)
    && (forall a, b, c :: leq(a, b) && leq(b, c) ==> leq(a, c))
  }

  ghost predicate SortedBy<T(!new), K(!new)>(s: seq<T>, key: T -> K, leq: (K, K) -> bool) {
    forall i, j :: 0 <= i < j < |s| ==> leq(key(s[i]), key(s[j]))
  }

  ghost predicate DistinctBy<T(!new), K(!new)>(s: seq<T>, key: T -> K) {
    forall i, j :: 0 <= i < j < |s| ==> key(s[i]) != key(s[j])
  }

  /** The elements whose key is `k`, in their original order. */
  function WithKey<T(!new), K(==)>(s: seq<T>, key: T -> K, k: K): (r: seq<T>)
    ensures forall x :: x in r <==> x in s && key(x) == k
  {
    if s == [] then []
    else if key(s[0]) == k then [s[0]] + WithKey(s[1..], key, k)
    else WithKey(s[1..], key, k)
  }

  function Insert<T, K>(x: T, s: seq<T>, key: T -> K, leq: (K, K) -> bool): seq<T> {
    if s == [] || leq(key(x), key(s[0])) then [x] + s
    else [s[0]] + Insert(x, s[1..], key, leq)
  }

  /** `slice::sort_by_key`: a stable sort. */
  function StableSort<T, K>(s: seq<T>, key: T -> K, leq: (K, K) -> bool): seq<T> {
    if s == [] then [] else Insert(s[0], StableSort(s[1..], key, leq), key, leq)
  }

  /** `Vec::dedup_by_key`: of each run of equal keys keep the first element. */
  function DedupByKey<T, K(==)>(s: seq<T>, key: T -> K): (r: seq<T>)
    ensures s != [] ==> r != [] && r[0] == s[0]
    decreases |s|
  {
    if |s| <= 1 then s
    else if key(s[0]) == key(s[1]) then DedupByKey([s[0]] + s[2..], key)
    else [s[0]] + DedupByKey(s[1..], key)
  }

  /** `slice::binary_search_by_key` on `s[lo..hi]`: a matching index, or the insertion point. */
  function BinarySearch<T, K(==)>(s: seq<T>, k: K, key: T -> K, leq: (K, K) -> bool, lo: nat, hi: nat)
    : (r: Result<nat, nat>)
    requires lo <= hi <= |s|
    ensures r.Success? ==> lo <= r.value < hi && key(s[r.value]) == k
    ensures r.Failure? ==> lo <= r.error <= hi
    decreases hi - lo
  {
    if lo == hi then Failure(lo)
    else
      var mid := lo + (hi - lo) / 2;
      if key(s[mid]) == k then Success(mid)
      else if leq(key(s[mid]), k) then BinarySearch(s, k, key, leq, mid + 1, hi)
      else BinarySearch(s, k, key, leq, lo, mid)
  }

  lemma {:induction false} InsertMembers<T, K>(x: T, s: seq<T>, key: T -> K, leq: (K, K) -> bool)
    ensures multiset(Insert(x, s, key, leq)) == multiset([x] + s)
  {
    if s == [] || leq(key(x), key(s[0])) {
    } else {
      InsertMembers(x, s[1..], key, leq);
      assert s == [s[0]] + s[1..];
    }
  }

  lemma {:induction false} InsertSorted<T(!new), K(!new)>(x: T, s: seq<T>, key: T -> K, leq: (K, K) -> bool)
    requires TotalOrder(leq) && SortedBy(s, key, leq)
    ensures SortedBy(Insert(x, s, key, leq), key, leq)
  {
    if s == [] || leq(key(x), key(s[0])) {
    } else {
      var rest := Insert(x, s[1..], key, leq);
      InsertSorted(x, s[1..], key, leq);
      InsertMembers(x, s[1..], key, leq);
      forall j | 0 <= j < |rest| ensures leq(key(s[0]), key(rest[j])) {
        assert rest[j] in multiset(rest);
        assert rest[j] in [x] + s[1..];
      }
    }
  }

  lemma {:induction false} InsertStable<T(!new), K(!new)>(x: T, s: seq<T>, key: T -> K, leq: (K, K) -> bool, k: K)
    requires TotalOrder(leq)
    ensures WithKey(Insert(x, s, key, leq), key, k) == WithKey([x] + s, key, k)
  {
    assert ([x] + s)[1..] == s;
    if s == [] || leq(key(x), key(s[0])) {
    } else {
      InsertStable(x, s[1..], key, leq, k);
      var rest := Insert(x, s[1..], key, leq);
      assert ([s[0]] + rest)[1..] == rest;
      assert ([x] + s[1..])[1..] == s[1..];
    }
  }

  /** The sort's contract: it permutes, it sorts, and it never reorders equal keys. */
  lemma {:induction false} StableSortCorrect<T(!new), K(!new)>(s: seq<T>, key: T -> K, leq: (K, K) -> bool)
    requires TotalOrder(leq)
    ensures multiset(StableSort(s, key, leq)) == multiset(s)
    ensures SortedBy(StableSort(s, key, leq), key, leq)
    ensures forall k :: WithKey(StableSort(s, key, leq), key, k) == WithKey(s, key, k)
  {
    if s == [] {
    } else {
      var rest := StableSort(s[1..], key, leq);
      StableSortCorrect(s[1..], key, leq);
      InsertMembers(s[0], rest, key, leq);
      InsertSorted(s[0], rest, key, leq);
      assert s == [s[0]] + s[1..];
      forall k ensures WithKey(StableSort(s, key, leq), key, k) == WithKey(s, key, k) {
        InsertStable(s[0], rest, key, leq, k);
        assert ([s[0]] + rest)[1..] == rest;
      }
    }
  }

  /** The first element of a sequence, as a sequence of at most one. */
  function Head<T>(s: seq<T>): seq<T> {
    if s == [] then [] else [s[0]]
  }

  lemma {:induction false} DedupSubset<T(!new), K(!new)>(s: seq<T>, key: T -> K, x: T)
    requires x in DedupByKey(s, key)
    ensures x in s
    decreases |s|
  {
    if |s| > 1 {
      if key(s[0]) == key(s[1]) {
        DedupSubset([s[0]] + s[2..], key, x);
      } else if x != s[0] {
        DedupSubset(s[1..], key, x);
      }
    }
  }

  lemma {:induction false} DedupSorted<T(!new), K(!new)>(s: seq<T>, key: T -> K, leq: (K, K) -> bool)
    requires TotalOrder(leq) && SortedBy(s, key, leq)
    ensures SortedBy(DedupByKey(s, key), key, leq) && DistinctBy(DedupByKey(s, key), key)
    decreases |s|
  {
    if |s| > 1 {
      if key(s[0]) == key(s[1]) {
        DedupSorted([s[0]] + s[2..], key, leq);
      } else {
        var rest := DedupByKey(s[1..], key);
        DedupSorted(s[1..], key, leq);
        forall j | 0 <= j < |rest| ensures leq(key(s[0]), key(rest[j])) && key(s[0]) != key(rest[j]) {
          DedupSubset(s[1..], key, rest[j]);
          var i :| 0 <= i < |s[1..]| && s[1..][i] == rest[j];
          assert leq(key(s[1]), key(s[i + 1]));
        }
      }
    }
  }

  lemma {:induction false} DedupKeepsFirst<T(!new), K(!new)>(s: seq<T>, key: T -> K, leq: (K, K) -> bool, k: K)
    requires TotalOrder(leq) && SortedBy(s, key, leq)
    ensures WithKey(DedupByKey(s, key), key, k) == Head(WithKey(s, key, k))
    decreases |s|
  {
    if |s| > 1 {
      if key(s[0]) == key(s[1]) {
        var t := [s[0]] + s[2..];
        DedupKeepsFirst(t, key, leq, k);
        assert t[1..] == s[2..] == s[1..][1..];
      } else {
        var rest := DedupByKey(s[1..], key);
        DedupKeepsFirst(s[1..], key, leq, k);
        assert ([s[0]] + rest)[1..] == rest;
        if k == key(s[0]) {
          forall x | x in s[1..] ensures key(x) != k {
            var i :| 0 <= i < |s[1..]| && s[1..][i] == x;
            assert leq(key(s[1]), key(s[i + 1]));
          }
          NoneWithKey(s[1..], key, k);
        }
      }
    }
  }

  lemma {:induction false} NoneWithKey<T(!new), K(!new)>(s: seq<T>, key: T -> K, k: K)
    requires forall x :: x in s ==> key(x) != k
    ensures WithKey(s, key, k) == []
  {
    if s != [] {
      NoneWithKey(s[1..], key, k);
    }
  }

  /** On a sorted input, dedup leaves distinct keys and keeps each key's first element. */
  lemma DedupCorrect<T(!new), K(!new)>(s: seq<T>, key: T -> K, leq: (K, K) -> bool)
    requires TotalOrder(leq) && SortedBy(s, key, leq)
    ensures SortedBy(DedupByKey(s, key), key, leq) && DistinctBy(DedupByKey(s, key), key)
    ensures forall k :: WithKey(DedupByKey(s, key), key, k) == Head(WithKey(s, key, k))
  {
    DedupSorted(s, key, leq);
    forall k ensures WithKey(DedupByKey(s, key), key, k) == Head(WithKey(s, key, k)) {
      DedupKeepsFirst(s, key, leq, k);
    }
  }

  /** Binary search over strictly sorted keys: found exactly, or a point splitting below from above. */
  lemma {:induction false} BinarySearchCorrect<T(!new), K(!new)>(s: seq<T>, k: K, key: T -> K, leq: (K, K) -> bool,
                                                                 lo: nat, hi: nat)
    requires lo <= hi <= |s|
    requires TotalOrder(leq) && SortedBy(s, key, leq) && DistinctBy(s, key)
    requires forall i :: 0 <= i < lo ==> leq(key(s[i]), k) && key(s[i]) != k
    requires forall i :: hi <= i < |s| ==> leq(k, key(s[i])) && key(s[i]) != k
    ensures var r := BinarySearch(s, k, key, leq, lo, hi);
            r.Failure? ==>
              && (forall i :: 0 <= i < r.error ==> leq(key(s[i]), k) && key(s[i]) != k)
              && (forall i :: r.error <= i < |s| ==> leq(k, key(s[i])) && key(s[i]) != k)
    decreases hi - lo
  {
    if lo < hi {
      var mid := lo + (hi - lo) / 2;
      if key(s[mid]) == k {
      } else if leq(key(s[mid]), k) {
        BinarySearchCorrect(s, k, key, leq, mid + 1, hi);
      } else {
        BinarySearchCorrect(s, k, key, leq, lo, mid);
      }
    }
  }

  // ---- strings ---------------------------------------------------------

  /** `str` order: lexicographic by scalar value. */
  predicate StringLeq(a: string, b: string) {
    a == [] || (b != [] && (a[0] < b[0] || (a[0] == b[0] && StringLeq(a[1..], b[1..]))))
  }

  lemma {:induction false} StringLeqReflexive(a: string)
    ensures StringLeq(a, a)
  {
    if a != [] {
      StringLeqReflexive(a[1..]);
    }
  }

  lemma {:induction false} StringLeqTotal(a: string, b: string)
    ensures StringLeq(a, b) || StringLeq(b, a)
    ensures StringLeq(a, b) && StringLeq(b, a) ==> a == b
  {
    if a != [] && b != [] {
      StringLeqTotal(a[1..], b[1..]);
      assert a == [a[0]] + a[1..] && b == [b[0]] + b[1..];
    }
  }

  lemma {:induction false} StringLeqTransitive(a: string, b: string, c: string)
    requires StringLeq(a, b) && StringLeq(b, c)
    ensures StringLeq(a, c)
  {
    if a != [] && a[0] == b[0] == c[0] {
      StringLeqTransitive(a[1..], b[1..], c[1..]);
    }
  }

  lemma StringOrder()
    ensures TotalOrder(StringLeq)
  {
    forall a: string ensures StringLeq(a, a) { StringLeqReflexive(a); }
    forall a: string, b: string
      ensures StringLeq(a, b) || StringLeq(b, a)
      ensures StringLeq(a, b) && StringLeq(b, a) ==> a == b
    {
      StringLeqTotal(a, b);
    }
    forall a: string, b: string, c: string | StringLeq(a, b) && StringLeq(b, c) ensures StringLeq(a, c) {
      StringLeqTransitive(a, b, c);
    }
  }

  /** A strictly sorted sequence is determined by its set of keys and the element each key names. */
  lemma {:induction false} StrictlySortedUnique<T(!new), K(!new)>(s: seq<T>, t: seq<T>, key: T -> K,
                                                                  leq: (K, K) -> bool)
    requires TotalOrder(leq)
    requires SortedBy(s, key, leq) && DistinctBy(s, key)
    requires SortedBy(t, key, leq) && DistinctBy(t, key)
    requires forall x :: x in s <==> x in t
    ensures s == t
  {
    assert t != [] ==> t[0] in s;
    assert s != [] ==> s[0] in t;
    if s != [] {
      assert leq(key(s[0]), key(t[0])) && leq(key(t[0]), key(s[0]));
      assert s[0] == t[0];
      forall x ensures x in s[1..] <==> x in t[1..] {
        TailMember(s, key, x);
        TailMember(t, key, x);
      }
      StrictlySortedUnique(s[1..], t[1..], key, leq);
      assert s == [s[0]] + s[1..] && t == [t[0]] + t[1..];
    }
  }

  lemma TailMember<T(!new), K(!new)>(s: seq<T>, key: T -> K, x: T)
    requires s != [] && DistinctBy(s, key)
    ensures x in s[1..] <==> x in s && x != s[0]
  {
    assert s == [s[0]] + s[1..];
    if i :| 0 <= i < |s[1..]| && s[1..][i] == x {
      assert key(s[0]) != key(s[i + 1]);
    }
  }

  /** Where a key belongs to one element only, keeping the first of each key loses no member. */
  lemma SameMember<T(!new), K(!new)>(s: seq<T>, d: seq<T>, key: T -> K, x: T)
    requires forall y :: key(y) == key(x) ==> y == x
    requires WithKey(d, key, key(x)) == Head(WithKey(s, key, key(x)))
    ensures x in d <==> x in s
  {
    var w := WithKey(s, key, key(x));
    if w != [] { assert w[0] in w; }
    assert x in d <==> x in Head(w);
  }

  /** Text `a` comes before `b` at place `i`: they agree up to there, and `a` ends or has the smaller character. */
  ghost predicate PrecedesAt(a: string, b: string, i: nat) {
    && i <= |a| && i <= |b| && a[..i] == b[..i]
    && (i == |a| || (i < |b| && a[i] < b[i]))
  }

  ghost predicate Precedes(a: string, b: string) {
    exists i: nat :: PrecedesAt(a, b, i)
  }

  /** The order of texts is lexicographic. */
  lemma {:induction false} StringLeqLexicographic(a: string, b: string)
    ensures StringLeq(a, b) <==> Precedes(a, b)
  {
    if a == [] {
      assert PrecedesAt(a, b, 0);
    } else if b != [] {
      StringLeqLexicographic(a[1..], b[1..]);
      if a[0] < b[0] {
        assert PrecedesAt(a, b, 0);
      } else if a[0] == b[0] {
        PrecedesTail(a, b);
      }
    }
  }

  lemma PrecedesTail(a: string, b: string)
    requires a != [] && b != [] && a[0] == b[0]
    ensures Precedes(a, b) <==> Precedes(a[1..], b[1..])
  {
    if i: nat :| PrecedesAt(a, b, i) {
      assert i > 0 && a[1..][..i - 1] == a[..i][1..] && b[1..][..i - 1] == b[..i][1..];
      assert PrecedesAt(a[1..], b[1..], i - 1);
    }
    if i: nat :| PrecedesAt(a[1..], b[1..], i) {
      assert a[..i + 1] == [a[0]] + a[1..][..i] && b[..i + 1] == [b[0]] + b[1..][..i];
      assert PrecedesAt(a, b, i + 1);
    }
  }
}
