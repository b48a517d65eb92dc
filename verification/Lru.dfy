/**
 The least-recently-used map of the `lru` crate: keys from most to least recently used, and their
 values. `Put` at capacity drops the least recently used entry without handing it to the caller.
 */
module Lru {


  datatype Lru<K(!new), V> = Lru(order: seq<K>, table: map<K, V>, cap: nat)
  {
    ghost predicate Ok() {
      && Distinct(order)
      && (forall k :: k in order <==> k in table)
      && |order| <= cap && 1 <= cap
    }

    function Oldest(): K
      requires order != []
    {
      order[|order| - 1]
    }
  }

  ghost predicate Distinct<K>(s: seq<K>) {
    forall i, j :: 0 <= i < j < |s| ==> s[i] != s[j]
  }

  /** The sequence without one key. */
  function Remove<K(==)>(s: seq<K>, k: K): seq<K> {
    if s == [] then []
    else if s[|s| - 1] == k then Remove(s[..|s| - 1], k)
    else Remove(s[..|s| - 1], k) + [s[|s| - 1]]
  }

  function Empty<K(!new), V>(cap: nat): Lru<K, V> {
    Lru([], map[], cap)
  }

  /** `get_mut`: the key becomes the most recent one and its value is replaced. */
  function Touch<K(!new), V>(l: Lru<K, V>, k: K, v: V): Lru<K, V> {
    l.(order := [k] + Remove(l.order, k), table := l.table[k := v])
  }

  /** `pop`. */
  function Pop<K(!new), V>(l: Lru<K, V>, k: K): Lru<K, V> {
    l.(order := Remove(l.order, k), table := l.table - {k})
  }

  /** `pop_lru`. */
  function PopOldest<K(!new), V>(l: Lru<K, V>): Lru<K, V>
    requires l.order != []
  {
    l.(order := l.order[..|l.order| - 1], table := l.table - {l.Oldest()})
  }

  /** Whether `put` of a key silently drops the oldest entry. */
  predicate Drops<K(!new), V>(l: Lru<K, V>, k: K) {
    k !in l.table && |l.order| >= l.cap && l.order != []
  }

  /** `put`: replace in place or insert, making room first when at capacity. */
  function Put<K(!new), V>(l: Lru<K, V>, k: K, v: V): Lru<K, V> {
    Touch(if Drops(l, k) then PopOldest(l) else l, k, v)
  }

  // ---- sequences without repetition --------------------------------------

  lemma {:induction false} RemoveMembers<K(!new)>(s: seq<K>, k: K)
    ensures forall x :: x in Remove(s, k) <==> x in s && x != k
    ensures k !in s ==> Remove(s, k) == s
    ensures |Remove(s, k)| <= |s|
  {
    if s != [] {
      RemoveMembers(s[..|s| - 1], k);
      assert s == s[..|s| - 1] + [s[|s| - 1]];
    }
  }

  lemma {:induction false} RemoveDistinct<K(!new)>(s: seq<K>, k: K)
    requires Distinct(s)
    ensures Distinct(Remove(s, k))
    ensures |Remove(s, k)| == if k in s then |s| - 1 else |s|
  {
    if s != [] {
      var front, last := s[..|s| - 1], s[|s| - 1];
      assert s == front + [last];
      RemoveDistinct(front, k);
      RemoveMembers(front, k);
      assert last !in front;
    }
  }

  lemma {:induction false} RemoveConcat<K(!new)>(a: seq<K>, b: seq<K>, k: K)
    ensures Remove(a + b, k) == Remove(a, k) + Remove(b, k)
  {
    if b == [] {
      assert a + b == a;
    } else {
      assert (a + b)[..|a + b| - 1] == a + b[..|b| - 1];
      RemoveConcat(a, b[..|b| - 1], k);
    }
  }

  lemma ConsDistinct<K(!new)>(k: K, s: seq<K>)
    requires Distinct(s) && k !in s
    ensures Distinct([k] + s)
  {
  }

  lemma TouchOk<K(!new), V>(l: Lru<K, V>, k: K, v: V)
    requires l.Ok() && (k in l.table || |l.order| < l.cap)
    ensures Touch(l, k, v).Ok()
  {
    RemoveMembers(l.order, k);
    RemoveDistinct(l.order, k);
    ConsDistinct(k, Remove(l.order, k));
    var t := Touch(l, k, v);
    forall x ensures x in t.order <==> x in t.table {
      assert x in t.order <==> x == k || x in Remove(l.order, k);
    }
  }

  lemma PopOk<K(!new), V>(l: Lru<K, V>, k: K)
    requires l.Ok()
    ensures Pop(l, k).Ok()
  {
    RemoveMembers(l.order, k);
    RemoveDistinct(l.order, k);
  }

  /** The oldest key is the one removed, and it does not occur elsewhere. */
  lemma PopOldestIsPop<K(!new), V>(l: Lru<K, V>)
    requires l.Ok() && l.order != []
    ensures PopOldest(l) == Pop(l, l.Oldest())
    ensures PopOldest(l).Ok()
  {
    var front := l.order[..|l.order| - 1];
    assert l.Oldest() !in front;
    RemoveMembers(front, l.Oldest());
    PopOk(l, l.Oldest());
  }

  lemma PutOk<K(!new), V>(l: Lru<K, V>, k: K, v: V)
    requires l.Ok()
    ensures Put(l, k, v).Ok()
    ensures Put(l, k, v).order[0] == k && k in Put(l, k, v).table && Put(l, k, v).table[k] == v
  {
    if Drops(l, k) { PopOldestIsPop(l); }
    TouchOk(if Drops(l, k) then PopOldest(l) else l, k, v);
  }

  // ---- weights -----------------------------------------------------------

  function Weight<K(==, !new), V>(table: map<K, V>, size: V -> nat, k: K): nat {
    if k in table then size(table[k]) else 0
  }

  /** The total weight of the first `n` keys. */
  function TotalUpTo<K(==, !new), V>(order: seq<K>, table: map<K, V>, size: V -> nat, n: nat): nat
    requires n <= |order|
  {
    if n == 0 then 0 else TotalUpTo(order, table, size, n - 1) + Weight(table, size, order[n - 1])
  }

  function Total<K(!new), V>(l: Lru<K, V>, size: V -> nat): nat {
    TotalUpTo(l.order, l.table, size, |l.order|)
  }

  /** Totals depend only on the keys counted and their weights. */
  lemma {:induction false} TotalAgrees<K(!new), V>(order: seq<K>, table: map<K, V>, order': seq<K>, table': map<K, V>,
                                                   size: V -> nat, n: nat)
    requires n <= |order| && n <= |order'|
    requires forall i :: 0 <= i < n ==>
               order[i] == order'[i] && Weight(table, size, order[i]) == Weight(table', size, order'[i])
    ensures TotalUpTo(order, table, size, n) == TotalUpTo(order', table', size, n)
  {
    if n > 0 { TotalAgrees(order, table, order', table', size, n - 1); }
  }

  lemma {:induction false} TotalMonotone<K(!new), V>(order: seq<K>, table: map<K, V>, size: V -> nat, m: nat, n: nat)
    requires m <= n <= |order|
    ensures TotalUpTo(order, table, size, m) <= TotalUpTo(order, table, size, n)
  {
    if m < n { TotalMonotone(order, table, size, m, n - 1); }
  }

  lemma {:induction false} TotalCons<K(!new), V>(k: K, s: seq<K>, table: map<K, V>, size: V -> nat, n: nat)
    requires n <= |s|
    ensures TotalUpTo([k] + s, table, size, n + 1) == Weight(table, size, k) + TotalUpTo(s, table, size, n)
  {
    if n > 0 { TotalCons(k, s, table, size, n - 1); }
  }

  /** Taking one key out takes its weight out. */
  lemma {:induction false} TotalRemove<K(!new), V>(s: seq<K>, k: K, table: map<K, V>, size: V -> nat)
    requires Distinct(s) && k in s
    ensures TotalUpTo(s, table, size, |s|)
         == TotalUpTo(Remove(s, k), table, size, |Remove(s, k)|) + Weight(table, size, k)
  {
    var front, last := s[..|s| - 1], s[|s| - 1];
    assert s == front + [last];
    TotalAgrees(s, table, front, table, size, |front|);
    if last == k {
      assert k !in front;
      RemoveMembers(front, k);
    } else {
      TotalRemove(front, k, table, size);
      var r := Remove(front, k);
      TotalAgrees(r + [last], table, r, table, size, |r|);
    }
  }

  /** Changing weights outside the counted keys changes nothing. */
  lemma TotalFrame<K(!new), V>(s: seq<K>, table: map<K, V>, table': map<K, V>, size: V -> nat)
    requires forall k :: k in s ==> Weight(table, size, k) == Weight(table', size, k)
    ensures TotalUpTo(s, table, size, |s|) == TotalUpTo(s, table', size, |s|)
  {
    TotalAgrees(s, table, s, table', size, |s|);
  }

  lemma TotalPop<K(!new), V>(l: Lru<K, V>, k: K, size: V -> nat)
    requires l.Ok() && k in l.table
    ensures Total(l, size) == Total(Pop(l, k), size) + size(l.table[k])
  {
    TotalRemove(l.order, k, l.table, size);
    RemoveMembers(l.order, k);
    TotalFrame(Remove(l.order, k), l.table, l.table - {k}, size);
  }

  lemma TotalTouch<K(!new), V>(l: Lru<K, V>, k: K, v: V, size: V -> nat)
    requires l.Ok()
    ensures Total(Touch(l, k, v), size) + (if k in l.table then size(l.table[k]) else 0) == Total(l, size) + size(v)
  {
    var rest := Remove(l.order, k);
    RemoveMembers(l.order, k);
    TotalCons(k, rest, l.table[k := v], size, |rest|);
    TotalFrame(rest, l.table, l.table[k := v], size);
    if k in l.table { TotalRemove(l.order, k, l.table, size); }
  }

  lemma TotalPut<K(!new), V>(l: Lru<K, V>, k: K, v: V, size: V -> nat)
    requires l.Ok()
    ensures Total(Put(l, k, v), size)
            + (if k in l.table then size(l.table[k]) else 0)
            + (if Drops(l, k) then size(l.table[l.Oldest()]) else 0)
         == Total(l, size) + size(v)
  {
    if Drops(l, k) {
      PopOldestIsPop(l);
      TotalPop(l, l.Oldest(), size);
      TotalTouch(PopOldest(l), k, v, size);
    } else {
      TotalTouch(l, k, v, size);
    }
  }
}
