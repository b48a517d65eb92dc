/**
 The history of a cache as a list of events, and what any cache that keeps an honest history
 satisfies: conservation of modules and of bytes, and exact row counters.
 */
module Log {

  import opened Wrappers

  datatype Event<K> =
    | Hit(id: K)
    | Inserted(id: K, bytes: nat)
    | Replaced(id: K, bytes: nat)   // pushed out by a new module with the same key
    | Dropped(id: K, bytes: nat)    // silently pushed out by `put` at count capacity
    | Evicted(id: K, bytes: nat)    // to budget or by force
    | Cleared                       // the byte counter was reset
  {
    predicate Removes() {
      Replaced? || Dropped? || Evicted?
    }
  }

  datatype Info = Info(rows: nat, bytes: nat)

  function LiveAfter<K(==)>(prior: Option<Info>, e: Event<K>, id: K): Option<Info> {
    match e
    case Hit(k) => if k == id && prior.Some? then Some(Info(prior.value.rows + 1, prior.value.bytes)) else prior
    case Inserted(k, b) => if k == id then Some(Info(0, b)) else prior
    case Cleared => prior
    case _ => if e.id == id then None else prior
  }

  /** What the history says about a key: resident or not, its hits since its latest insertion, its bytes. */
  function Live<K(==)>(log: seq<Event<K>>, id: K): Option<Info> {
    if log == [] then None
    else LiveAfter(Live(log[..|log| - 1], id), log[|log| - 1], id)
  }

  /** An event that can happen: only resident keys are hit or removed, only absent keys are inserted. */
  predicate Possible<K(==)>(log: seq<Event<K>>, e: Event<K>) {
    match e
    case Hit(k) => Live(log, k).Some?
    case Inserted(k, _) => Live(log, k).None?
    case Cleared => true
    case _ => Live(log, e.id).Some? && Live(log, e.id).value.bytes == e.bytes
  }

  predicate Honest<K(==)>(log: seq<Event<K>>) {
    log == [] || (Honest(log[..|log| - 1]) && Possible(log[..|log| - 1], log[|log| - 1]))
  }

  lemma Snoc<K>(log: seq<Event<K>>, e: Event<K>)
    ensures (log + [e])[..|log|] == log && (log + [e])[|log|] == e
  {
  }

  lemma LiveSnoc<K(!new)>(log: seq<Event<K>>, e: Event<K>)
    ensures forall id :: Live(log + [e], id) == LiveAfter(Live(log, id), e, id)
    ensures Honest(log + [e]) <==> Honest(log) && Possible(log, e)
  {
    Snoc(log, e);
  }

  // ---- counting ----------------------------------------------------------

  function InsertedCount<K>(log: seq<Event<K>>): nat {
    if log == [] then 0
    else InsertedCount(log[..|log| - 1]) + (if log[|log| - 1].Inserted? then 1 else 0)
  }

  function RemovedCount<K>(log: seq<Event<K>>): nat {
    if log == [] then 0
    else RemovedCount(log[..|log| - 1]) + (if log[|log| - 1].Removes() then 1 else 0)
  }

  /** Bytes silently dropped since the byte counter was last reset. */
  function DroppedBytes<K>(log: seq<Event<K>>): nat {
    if log == [] then 0
    else
      var before := DroppedBytes(log[..|log| - 1]);
      match log[|log| - 1]
      case Dropped(_, b) => before + b
      case Cleared => 0
      case _ => before
  }

  lemma CountSnoc<K>(log: seq<Event<K>>, e: Event<K>)
    ensures InsertedCount(log + [e]) == InsertedCount(log) + (if e.Inserted? then 1 else 0)
    ensures RemovedCount(log + [e]) == RemovedCount(log) + (if e.Removes() then 1 else 0)
    ensures DroppedBytes(log + [e]) == if e.Cleared? then 0 else DroppedBytes(log) + (if e.Dropped? then e.bytes else 0)
  {
    Snoc(log, e);
  }

  /** Pushing out at most one key, then inserting an absent one. */
  lemma PushThenInsert<K(!new)>(log: seq<Event<K>>, out: seq<Event<K>>, added: Event<K>)
    requires Honest(log) && added.Inserted? && |out| <= 1
    requires out != [] ==> out[0].Removes() && Possible(log, out[0])
    requires Live(log, added.id).None? || (out != [] && out[0].id == added.id)
    ensures Honest(log + out + [added])
    ensures forall k :: Live(log + out + [added], k) ==
                        if k == added.id then Some(Info(0, added.bytes))
                        else if out != [] && k == out[0].id then None else Live(log, k)
    ensures InsertedCount(log + out + [added]) == InsertedCount(log) + 1
    ensures DroppedBytes(log + out + [added]) ==
            DroppedBytes(log) + (if out != [] && out[0].Dropped? then out[0].bytes else 0)
  {
    var middle := log + out;
    if out == [] {
      assert middle == log;
    } else {
      assert middle == log + [out[0]];
      LiveSnoc(log, out[0]);
      CountSnoc(log, out[0]);
    }
    LiveSnoc(middle, added);
    CountSnoc(middle, added);
  }

  /** Modules are conserved: inserted ones are resident or have been removed, each once. */
  lemma {:induction false} ModulesConserved<K(!new)>(log: seq<Event<K>>, live: set<K>)
    requires Honest(log) && forall id :: id in live <==> Live(log, id).Some?
    ensures InsertedCount(log) == RemovedCount(log) + |live|
  {
    if log == [] {
      assert live == {} by {
        assert forall id :: id !in live;
      }
    } else {
      var front, e := log[..|log| - 1], log[|log| - 1];
      assert forall id :: Live(log, id) == LiveAfter(Live(front, id), e, id);
      if e.Inserted? {
        assert e.id in live;
        ModulesConserved(front, live - {e.id});
      } else if e.Removes() {
        assert e.id !in live;
        ModulesConserved(front, live + {e.id});
      } else {
        ModulesConserved(front, live);
      }
    }
  }

  lemma {:induction false} HonestPrefix<K(!new)>(log: seq<Event<K>>, n: nat)
    requires Honest(log) && n <= |log|
    ensures Honest(log[..n])
    ensures n < |log| ==> Possible(log[..n], log[n])
  {
    if n == |log| {
      assert log[..n] == log;
    } else if n < |log| - 1 {
      HonestPrefix(log[..|log| - 1], n);
      assert log[..|log| - 1][..n] == log[..n];
    }
  }

  /** While nothing removes or reinserts a key, it stays resident. */
  lemma {:induction false} LiveUntilRemoved<K(!new)>(log: seq<Event<K>>, id: K, i: nat, n: nat)
    requires i < n <= |log| && log[i].Inserted? && log[i].id == id
    requires forall k :: i < k < n ==> !(log[k].Removes() && log[k].id == id) && !(log[k].Inserted? && log[k].id == id)
    ensures Live(log[..n], id).Some?
  {
    assert log[..n][..n - 1] == log[..n - 1];
    if i < n - 1 {
      LiveUntilRemoved(log, id, i, n - 1);
    }
  }

  /** Between two insertions of one key there is always a removal of it. */
  lemma RemovedBetweenInsertions<K(!new)>(log: seq<Event<K>>, id: K, i: nat, j: nat)
    requires Honest(log) && i < j < |log|
    requires log[i].Inserted? && log[i].id == id && log[j].Inserted? && log[j].id == id
    ensures exists k :: i < k < j && log[k].Removes() && log[k].id == id
  {
    if forall k :: i < k < j ==> !(log[k].Removes() && log[k].id == id) {
      var m := LastInsertion(log, id, i, j);
      LiveUntilRemoved(log, id, m, j);
      HonestPrefix(log, j);
      assert false;
    }
  }

  lemma {:induction false} LastInsertion<K(!new)>(log: seq<Event<K>>, id: K, i: nat, j: nat) returns (m: nat)
    requires i < j <= |log| && log[i].Inserted? && log[i].id == id
    ensures i <= m < j && log[m].Inserted? && log[m].id == id
    ensures forall k :: m < k < j ==> !(log[k].Inserted? && log[k].id == id)
  {
    m := j - 1;
    while !(log[m].Inserted? && log[m].id == id)
      invariant i <= m < j
      invariant forall k :: m < k < j ==> !(log[k].Inserted? && log[k].id == id)
      decreases m
    {
      m := m - 1;
    }
  }
}
