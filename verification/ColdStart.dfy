/**
 Cold start: a worker that imports an exported manifest exports that manifest again, and, where
 files are coherent, answers every later call as the worker that exported it.
 */
module ColdStart {

  import opened Wrappers
  import opened Sorting
  import opened Manifest
  import opened Caches
  import opened CacheFacts
  import opened Listing
  import opened States
  import opened Keys
  import opened Reference
  import opened Transparency

  /** Where keys are distinct, every entry is the last of its key. */
  lemma DistinctIsLast(es: seq<ManifestEntry>, i: nat)
    requires DistinctBy(es, EntryKey) && i < |es|
    ensures IsLast(es, |es|, i)
  {
    forall j | i < j < |es| ensures es[j].debugId != es[i].debugId { assert EntryKey(es[i]) != EntryKey(es[j]); }
  }

  /** Loading a listing into an empty cache stores exactly the entries listed. */
  lemma LoadedListing(c: Cache, es: seq<ManifestEntry>, entries: map<string, ManifestEntry>)
    requires c.entries == map[] && IsListing(es, entries)
    ensures IsListing(es, Rehydrate(c, es).entries)
  {
    var loaded := Rehydrate(c, es).entries;
    forall e ensures e in es <==> e.debugId in loaded && loaded[e.debugId] == e { LoadedOnce(c, es, e); }
  }

  lemma LoadedOnce(c: Cache, es: seq<ManifestEntry>, e: ManifestEntry)
    requires c.entries == map[] && DistinctBy(es, EntryKey)
    ensures e in es <==> e.debugId in Rehydrate(c, es).entries && Rehydrate(c, es).entries[e.debugId] == e
  {
    LoadedEntry(c, es, |es|, e.debugId);
    if IsKey(es, |es|, e.debugId) {
      var i := LastIndex(es, |es|, e.debugId);
      LoadedLast(c, es, |es|, i);
      if j :| 0 <= j < |es| && es[j] == e {
        DistinctIsLast(es, j);
        LoadedLast(c, es, |es|, j);
      }
    }
  }

  /** A listing determines the entries it lists. */
  lemma ListedOnce(es: seq<ManifestEntry>, a: map<string, ManifestEntry>, b: map<string, ManifestEntry>)
    requires IsListing(es, a) && IsListing(es, b)
    requires forall id :: id in a ==> a[id].debugId == id
    requires forall id :: id in b ==> b[id].debugId == id
    ensures a == b
  {
    forall id | id in a ensures id in b && b[id] == a[id] { assert a[id] in es; }
    forall id | id in b ensures id in a { assert b[id] in es; }
  }

  /** A restart keeps every entry with its exact counters and no module. */
  lemma RestartedEntries(s: State, maxBytes: nat, maxModules: nat)
    requires s.Valid()
    ensures var s' := Restart(s, maxBytes, maxModules);
            && s'.Valid() && s'.catalog.sources == s.catalog.sources
            && s'.cache.entries == Sync(s.cache).entries && s'.cache.Table() == map[]
  {
    var empty, es := New(maxBytes, maxModules), Export(s).1.entries;
    RestartKeeps(s, maxBytes, maxModules);
    SyncKeeps(s.cache);
    ExportLists(s);
    LoadedListing(empty, es, Sync(s.cache).entries);
    EntriesKeyed(Sync(s.cache));
    EntriesKeyed(Restart(s, maxBytes, maxModules).cache);
    ListedOnce(es, Rehydrate(empty, es).entries, Sync(s.cache).entries);
    LoadUpToResident(empty, es, |es|);
  }

  /** Export, import into a fresh worker, export: the manifest comes back, sorted with distinct keys. */
  lemma ManifestRoundTrip(s: State, maxBytes: nat, maxModules: nat)
    requires s.Valid()
    ensures Restart(s, maxBytes, maxModules).Valid()
    ensures Export(Restart(s, maxBytes, maxModules)).1 == Export(s).1
    ensures SortedBy(Export(s).1.entries, EntryKey, StringLeq) && DistinctBy(Export(s).1.entries, EntryKey)
  {
    RestartedEntries(s, maxBytes, maxModules);
    var c := Restart(s, maxBytes, maxModules).cache;
    assert Sync(c).entries == c.entries;
    SyncKeeps(s.cache);
    SyncKeeps(c);
    ExportLists(s);
    ExportLists(Restart(s, maxBytes, maxModules));
    ListingUnique(Export(Restart(s, maxBytes, maxModules)).1.entries, Export(s).1.entries, c.entries);
  }

  /** Every debug-id leads to itself and nothing else does; the misses known are the miss entries. */
  ghost predicate Bare(c: Cache) {
    && c.aliases.Keys == c.entries.Keys
    && (forall t :: t in c.aliases ==> c.aliases[t] == t)
    && (forall t :: t in c.negative <==> t in c.entries && c.entries[t].miss)
  }

  lemma LoadOneBare(c: Cache, e: ManifestEntry)
    requires Bare(c) && IsCanonical(e.debugId) && e.debugId !in c.entries
    ensures Bare(Load(c, e))
  {
  }

  lemma {:induction false} LoadedBare(c: Cache, es: seq<ManifestEntry>, n: nat)
    requires Bare(c) && c.entries == map[] && n <= |es| && DistinctBy(es, EntryKey)
    requires forall i :: 0 <= i < |es| ==> IsCanonical(es[i].debugId)
    ensures Bare(LoadUpTo(c, es, n))
  {
    if n > 0 {
      LoadedBare(c, es, n - 1);
      NewKey(es, n - 1);
      LoadedEntry(c, es, n - 1, es[n - 1].debugId);
      LoadOneBare(LoadUpTo(c, es, n - 1), es[n - 1]);
    }
  }

  lemma NewKey(es: seq<ManifestEntry>, n: nat)
    requires DistinctBy(es, EntryKey) && n < |es|
    ensures !IsKey(es, n, es[n].debugId)
  {
    forall i | 0 <= i < n ensures es[i].debugId != es[n].debugId { assert EntryKey(es[i]) != EntryKey(es[n]); }
  }

  /** What a restart remembers: every debug-id under its own name only, and exactly the recorded misses. */
  lemma RestartedMaps(s: State, maxBytes: nat, maxModules: nat)
    requires s.Valid() && Keyed(s.cache)
    ensures var c := Restart(s, maxBytes, maxModules).cache;
            && Bare(c) && c.entries.Keys == s.cache.entries.Keys
            && forall t :: t in c.entries ==> SameButCounters(c.entries[t], s.cache.entries[t])
  {
    RestartedEntries(s, maxBytes, maxModules);
    SyncKeeps(s.cache);
    ExportedKeys(s);
    ExportLists(s);
    LoadedBare(New(maxBytes, maxModules), Export(s).1.entries, |Export(s).1.entries|);
  }

  /**
   Where files are coherent, a worker that starts cold from another's manifest, with whatever
   budgets, answers every call of every later run as the other does.
   */
  lemma ColdStartAnswersAlike(x: Setting, s: State, maxBytes: nat, maxModules: nat, ops: seq<Op>, token: string,
                              addr: U64, now: nat)
    requires ProbeAgrees(x.world) && Coherent(x) && Settled(x, s) && AllFixed(ops)
    ensures Restart(s, maxBytes, maxModules).Valid()
    ensures var s' := Restart(s, maxBytes, maxModules);
            && States.Resolve(x.world, After(x.world, s', ops), token, addr, now).1
               == States.Resolve(x.world, After(x.world, s, ops), token, addr, now).1
            && States.FunctionName(x.world, After(x.world, s', ops), token, addr, now).1
               == States.FunctionName(x.world, After(x.world, s, ops), token, addr, now).1
  {
    StepSettled(x, s, RestartOp(maxBytes, maxModules));
    RestartKeeps(s, maxBytes, maxModules);
    CoherentIsTransparent(x, s);
    CoherentIsTransparent(x, Restart(s, maxBytes, maxModules));
  }
}
