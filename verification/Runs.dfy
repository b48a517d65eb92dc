/**
 What holds over every run from any worker: entries are never lost, keys and misses stay in step,
 and the fast path can replace the full answer anywhere.
 */
module Runs {

  import opened Local
  import opened Caches
  import opened CacheFacts
  import opened States
  import opened Keys

  // ---- entries and keys ---------------------------------------------------------

  lemma {:induction false} RunKeepsEntries(w: World, s: State, ops: seq<Op>)
    requires s.Valid()
    ensures s.cache.entries.Keys <= After(w, s, ops).cache.entries.Keys
  {
    if ops != [] {
      RunKeepsEntries(w, s, ops[..|ops| - 1]);
      StepKeys(w, After(w, s, ops[..|ops| - 1]), ops[|ops| - 1]);
    }
  }

  /** Every import of a run carries misses that fit the state it meets. */
  ghost predicate ImportsFit(w: World, s: State, ops: seq<Op>)
    requires s.Valid()
  {
    ops == [] ||
    (var front, last := ops[..|ops| - 1], ops[|ops| - 1];
     ImportsFit(w, s, front) && (last.ImportOp? ==> MissesFit(After(w, s, front).cache, last.manifest.entries)))
  }

  /** Entries and misses are in step at every moment of a run. */
  ghost predicate AlwaysInStep(w: World, s: State, ops: seq<Op>)
    requires s.Valid()
  {
    InStep(After(w, s, ops).cache) && (ops == [] || AlwaysInStep(w, s, ops[..|ops| - 1]))
  }

  /** Entries and misses stay in step over a run exactly if every imported manifest fits. */
  lemma {:induction false} InStepExactly(w: World, s: State, ops: seq<Op>)
    requires s.Valid() && InStep(s.cache)
    ensures AlwaysInStep(w, s, ops) <==> ImportsFit(w, s, ops)
  {
    if ops != [] {
      var front := ops[..|ops| - 1];
      InStepExactly(w, s, front);
      InStepNow(w, s, front);
      if AlwaysInStep(w, s, front) { StepInStep(w, After(w, s, front), ops[|ops| - 1]); }
    }
  }

  lemma InStepNow(w: World, s: State, ops: seq<Op>)
    requires s.Valid()
    ensures AlwaysInStep(w, s, ops) ==> InStep(After(w, s, ops).cache)
  {
  }

  /**
   In every state a worker can reach by any calls, imports of any manifests included: resident keys
   and alias targets are entry keys and every entry is under its own debug-id. As long as the
   imports fit, known misses are entry keys and every miss entry is a known miss.
   */
  lemma MapsAgree(w: World, s: State, ops: seq<Op>)
    requires s.Valid()
    ensures var c := After(w, s, ops).cache;
            && (forall id :: id in c.Table() ==> id in c.entries)
            && (forall t :: t in c.aliases ==> c.aliases[t] in c.entries)
            && (forall id :: id in c.entries ==> c.entries[id].debugId == id)
    ensures var c := After(w, s, ops).cache;
            InStep(s.cache) && ImportsFit(w, s, ops) ==>
              && (forall t :: t in c.negative ==> t in c.entries)
              && (forall id :: id in c.entries && c.entries[id].miss ==> id in c.negative)
  {
    ValidMapsAgree(After(w, s, ops).cache);
    if InStep(s.cache) {
      InStepExactly(w, s, ops);
      InStepNow(w, s, ops);
    }
  }

  lemma ValidMapsAgree(c: Cache)
    requires Consistent(c)
    ensures forall id :: id in c.Table() ==> id in c.entries
    ensures forall t :: t in c.aliases ==> c.aliases[t] in c.entries
    ensures forall id :: id in c.entries ==> c.entries[id].debugId == id
  {
    EntriesKeyed(c);
    forall id | id in c.Table() ensures id in c.entries { assert ResidentOk(c, id); }
  }

  // ---- the fast path anywhere in a run ----------------------------------------------

  /** The same call, or the other of resolve and function_name with the same arguments. */
  predicate Swapped(a: Op, b: Op) {
    || a == b
    || (a.ResolveOp? && b == NameOp(a.token, a.addr, a.now))
    || (a.NameOp? && b == ResolveOp(a.token, a.addr, a.now))
  }

  lemma SwapSameState(w: World, s: State, a: Op, b: Op)
    requires s.Valid() && Swapped(a, b)
    ensures Step(w, s, a).0 == Step(w, s, b).0
  {
    if a.ResolveOp? || a.NameOp? { FastPathSameState(w, s, a.token, a.addr, a.now); }
  }

  /**
   Swapping resolve and function_name anywhere in a run changes no state: not the recency order,
   not a counter, not an entry, not a known miss.
   */
  lemma {:induction false} SwapAnywhere(w: World, s: State, a: seq<Op>, b: seq<Op>)
    requires s.Valid() && |a| == |b| && forall i :: 0 <= i < |a| ==> Swapped(a[i], b[i])
    ensures After(w, s, a) == After(w, s, b)
  {
    if a != [] {
      var n := |a| - 1;
      SwapAnywhere(w, s, a[..n], b[..n]);
      SwapSameState(w, After(w, s, a[..n]), a[n], b[n]);
    }
  }
}
