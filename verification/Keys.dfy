/**
 Which keys the cache's maps hold: entries are never lost, and misses and entries stay in step
 through every call, imports included exactly as far as their manifest fits.
 */
module Keys {

  import opened Wrappers
  import opened Ids
  import opened Manifest
  import opened Modules
  import opened Local
  import opened Caches
  import opened CacheFacts
  import opened Listing
  import opened States

  // ---- single operations ---------------------------------------------------------

  lemma InStepFrame(c: Cache, d: Cache)
    requires InStep(c) && d.negative == c.negative && d.entries.Keys == c.entries.Keys
    requires forall id :: id in c.entries ==> SameButCounters(d.entries[id], c.entries[id])
    ensures InStep(d)
  {
  }

  lemma EvictedInStep(c: Cache, d: Cache)
    requires InStep(c) && OnlyEvicted(c, d)
    ensures InStep(d) && d.entries.Keys == c.entries.Keys
  {
    OnlyEvictedCounters(c, d);
    InStepFrame(c, d);
  }

  lemma RecordMissInStep(c: Cache, token: string, now: nat)
    requires InStep(c)
    ensures InStep(RecordMiss(c, token, now)) && IsCanonical(CanonicalToken(token))
  {
    CanonicalIdempotent(token);
  }

  lemma RegisterInStep(c: Cache, m: ParsedModule, origin: Origin, now: nat)
    requires InStep(c) && IsCanonical(m.DebugIdStr())
    ensures InStep(Register(c, m, origin, now))
  {
  }

  lemma StoredInStep(c: Cache, m: ParsedModule, origin: Origin, now: nat)
    requires InStep(c)
    ensures InStep(Store(Register(c, m, origin, now), m.DebugIdStr(), FreshResident(m, now)))
  {
    DebugIdStrIsCanonical(m.Id());
    RegisterInStep(c, m, origin, now);
  }

  lemma InsertInStep(c: Cache, m: ParsedModule, origin: Origin, now: nat)
    requires Caches.Valid(c) && InStep(c)
    ensures InStep(Insert(c, m, origin, now))
  {
    var s := Store(Register(c, m, origin, now), m.DebugIdStr(), FreshResident(m, now));
    RegisteredStored(c, m, origin, now);
    StoredInStep(c, m, origin, now);
    EvictToBudgetFits(s);
    EvictedInStep(s, EvictToBudget(s));
  }

  lemma AnsweredInStep(c: Cache, token: string, now: nat)
    requires InStep(c)
    ensures InStep(Answered(c, token, now)) && Answered(c, token, now).entries == c.entries
  {
    InStepFrame(c, Answered(c, token, now));
  }

  lemma CalledInStep(c: Cache, found: Lookedup, token: string, now: nat)
    requires Caches.Valid(c) && InStep(c)
    ensures InStep(Called(c, found, token, now))
  {
    if c.IsResident(token) || c.IsKnownMiss(token) {
      AnsweredInStep(c, token, now);
    } else if found.NoFile? {
      RecordMissInStep(c, token, now);
    } else if found.Good? {
      InsertInStep(c, found.parsed, found.origin, now);
      AnsweredInStep(Insert(c, found.parsed, found.origin, now), token, now);
    }
  }

  /** No key is lost, and every new one is canonical. */
  ghost predicate KeysGrow(c: Cache, d: Cache) {
    c.entries.Keys <= d.entries.Keys && forall id :: id in d.entries && id !in c.entries ==> IsCanonical(id)
  }

  lemma InsertKeys(c: Cache, m: ParsedModule, origin: Origin, token: string, now: nat)
    requires Caches.Valid(c)
    ensures KeysGrow(c, Answered(Insert(c, m, origin, now), token, now))
  {
    InsertMaps(c, m, origin, now);
    DebugIdStrIsCanonical(m.Id());
  }

  lemma MissKeys(c: Cache, token: string, now: nat)
    ensures KeysGrow(c, RecordMiss(c, token, now))
  {
    CanonicalIdempotent(token);
  }

  lemma CalledKeys(c: Cache, found: Lookedup, token: string, now: nat)
    requires Caches.Valid(c)
    ensures KeysGrow(c, Called(c, found, token, now))
  {
    if c.IsResident(token) || c.IsKnownMiss(token) {
    } else if found.NoFile? {
      MissKeys(c, token, now);
    } else if found.Good? {
      InsertKeys(c, found.parsed, found.origin, token, now);
    }
  }

  // ---- importing a manifest --------------------------------------------------------

  predicate IsKey(es: seq<ManifestEntry>, n: nat, t: string)
    requires n <= |es|
  {
    exists i :: 0 <= i < n && es[i].debugId == t
  }

  /** No later entry of the list has the same key. */
  predicate IsLast(es: seq<ManifestEntry>, n: nat, i: nat)
    requires i < n <= |es|
  {
    forall j :: i < j < n ==> es[j].debugId != es[i].debugId
  }

  lemma {:induction false} LastIndex(es: seq<ManifestEntry>, n: nat, t: string) returns (i: nat)
    requires n <= |es| && IsKey(es, n, t)
    ensures i < n && es[i].debugId == t && IsLast(es, n, i)
  {
    if es[n - 1].debugId == t {
      i := n - 1;
    } else {
      i := LastIndex(es, n - 1, t);
    }
  }

  /** What loading makes of the entries: the last one of each key, over what was there. */
  lemma {:induction false} LoadedEntry(c: Cache, es: seq<ManifestEntry>, n: nat, t: string)
    requires n <= |es|
    ensures t in LoadUpTo(c, es, n).entries <==> t in c.entries || IsKey(es, n, t)
    ensures !IsKey(es, n, t) && t in c.entries ==> LoadUpTo(c, es, n).entries[t] == c.entries[t]
  {
    if n > 0 {
      LoadedEntry(c, es, n - 1, t);
      if es[n - 1].debugId == t { assert IsKey(es, n, t); }
      if i :| 0 <= i < n && es[i].debugId == t { assert i < n - 1 ==> IsKey(es, n - 1, t); }
    }
  }

  lemma {:induction false} LoadedLast(c: Cache, es: seq<ManifestEntry>, n: nat, i: nat)
    requires i < n <= |es| && IsLast(es, n, i)
    ensures es[i].debugId in LoadUpTo(c, es, n).entries && LoadUpTo(c, es, n).entries[es[i].debugId] == es[i]
  {
    if i < n - 1 { LoadedLast(c, es, n - 1, i); }
  }

  lemma {:induction false} LoadedMiss(c: Cache, es: seq<ManifestEntry>, n: nat, t: string)
    requires n <= |es|
    ensures t in LoadUpTo(c, es, n).negative <==>
            t in c.negative || exists i :: 0 <= i < n && es[i].miss && CanonicalToken(es[i].debugId) == t
  {
    if n > 0 { LoadedMiss(c, es, n - 1, t); }
  }

  /** A miss the manifest carries: canonical where its entry is kept, and an entry key in any case. */
  ghost predicate MissFits(c: Cache, es: seq<ManifestEntry>, i: nat)
    requires i < |es|
  {
    var token := CanonicalToken(es[i].debugId);
    && (IsLast(es, |es|, i) ==> IsCanonical(es[i].debugId))
    && (token in c.entries || IsKey(es, |es|, token))
  }

  ghost predicate MissesFit(c: Cache, es: seq<ManifestEntry>) {
    forall i :: 0 <= i < |es| && es[i].miss ==> MissFits(c, es, i)
  }

  /** An import keeps entries and misses in step exactly if the misses of its manifest fit. */
  lemma ImportInStep(c: Cache, es: seq<ManifestEntry>)
    requires InStep(c)
    ensures InStep(Rehydrate(c, es)) <==> MissesFit(c, es)
  {
    if MissesFit(c, es) { FittingInStep(c, es); }
    if InStep(Rehydrate(c, es)) {
      forall i | 0 <= i < |es| && es[i].miss ensures MissFits(c, es, i) { InStepFits(c, es, i); }
    }
  }

  lemma InStepFits(c: Cache, es: seq<ManifestEntry>, i: nat)
    requires InStep(Rehydrate(c, es)) && i < |es| && es[i].miss
    ensures MissFits(c, es, i)
  {
    var d, token := Rehydrate(c, es), CanonicalToken(es[i].debugId);
    LoadedMiss(c, es, |es|, token);
    assert token in d.negative;
    LoadedEntry(c, es, |es|, token);
    if IsLast(es, |es|, i) { LoadedLast(c, es, |es|, i); }
  }

  lemma FittingInStep(c: Cache, es: seq<ManifestEntry>)
    requires InStep(c) && MissesFit(c, es)
    ensures InStep(Rehydrate(c, es))
  {
    var d := Rehydrate(c, es);
    forall id | id in d.entries && d.entries[id].miss ensures id in d.negative { MissEntryKnown(c, es, id); }
    forall t | t in d.negative ensures t in d.entries && IsCanonical(t) { KnownMissEntered(c, es, t); }
  }

  lemma MissEntryKnown(c: Cache, es: seq<ManifestEntry>, id: string)
    requires InStep(c) && MissesFit(c, es) && id in Rehydrate(c, es).entries && Rehydrate(c, es).entries[id].miss
    ensures id in Rehydrate(c, es).negative
  {
    LoadedEntry(c, es, |es|, id);
    LoadedMiss(c, es, |es|, id);
    if IsKey(es, |es|, id) {
      var i := LastIndex(es, |es|, id);
      LoadedLast(c, es, |es|, i);
      assert MissFits(c, es, i);
    }
  }

  lemma KnownMissEntered(c: Cache, es: seq<ManifestEntry>, t: string)
    requires InStep(c) && MissesFit(c, es) && t in Rehydrate(c, es).negative
    ensures t in Rehydrate(c, es).entries && IsCanonical(t)
  {
    LoadedMiss(c, es, |es|, t);
    LoadedEntry(c, es, |es|, t);
    if t !in c.negative {
      var i :| 0 <= i < |es| && es[i].miss && CanonicalToken(es[i].debugId) == t;
      assert MissFits(c, es, i);
      CanonicalIdempotent(es[i].debugId);
    }
  }

  /** Misses under canonical keys, as every export writes them, always fit. */
  lemma CanonicalMissesFit(c: Cache, es: seq<ManifestEntry>)
    requires forall i :: 0 <= i < |es| && es[i].miss ==> IsCanonical(es[i].debugId)
    ensures MissesFit(c, es)
  {
    forall i | 0 <= i < |es| && es[i].miss ensures MissFits(c, es, i) {
      assert IsKey(es, |es|, es[i].debugId);
    }
  }

  /** What an export writes: every entry, its misses under canonical keys. */
  lemma ExportedKeys(s: State)
    requires s.Valid() && InStep(s.cache)
    ensures var es := Export(s).1.entries;
            && (forall i :: 0 <= i < |es| ==> es[i].debugId in s.cache.entries)
            && (forall i :: 0 <= i < |es| && es[i].miss ==> IsCanonical(es[i].debugId))
  {
    SyncKeeps(s.cache);
    ExportLists(s);
    var es := Export(s).1.entries;
    forall i | 0 <= i < |es| ensures es[i].debugId in s.cache.entries && (es[i].miss ==> IsCanonical(es[i].debugId)) {
      assert es[i] in es;
      assert SameButCounters(Sync(s.cache).entries[es[i].debugId], s.cache.entries[es[i].debugId]);
    }
  }

  // ---- calls and runs -----------------------------------------------------------------

  lemma CallInStep(w: World, s: State, token: string, addr: U64, now: nat)
    requires s.Valid() && InStep(s.cache)
    ensures InStep(Step(w, s, ResolveOp(token, addr, now)).0.cache)
    ensures InStep(Step(w, s, NameOp(token, addr, now)).0.cache)
  {
    var found := LookUp(w, s.catalog.sources, s.limits, token);
    CalledInStep(s.cache, found, token, now);
    ResolveCalls(s, found, token, addr, now);
    NameCalls(s, found, token, addr, now);
  }

  lemma EvictTokenInStep(c: Cache, token: string)
    requires Caches.Valid(c) && InStep(c)
    ensures InStep(EvictToken(c, token).0)
  {
    EvictTokenKeeps(c, token);
    EvictedInStep(c, EvictToken(c, token).0);
  }

  lemma EvictAllInStep(c: Cache)
    requires Caches.Valid(c) && InStep(c)
    ensures InStep(EvictAll(c).0)
  {
    EvictAllKeeps(c);
    EvictedInStep(c, EvictAll(c).0);
  }

  lemma EvictInStep(w: World, s: State, token: string)
    requires s.Valid() && InStep(s.cache)
    ensures InStep(Step(w, s, EvictOp(token)).0.cache) && InStep(Step(w, s, EvictAllOp).0.cache)
  {
    EvictTokenInStep(s.cache, token);
    EvictAllInStep(s.cache);
  }

  lemma SyncInStep(w: World, s: State)
    requires s.Valid() && InStep(s.cache)
    ensures InStep(Step(w, s, ExportOp).0.cache)
  {
    SyncKeeps(s.cache);
    InStepFrame(s.cache, Sync(s.cache));
  }

  lemma RestartedInStep(s: State, maxBytes: nat, maxModules: nat, es: seq<ManifestEntry>)
    requires s.Valid() && InStep(s.cache) && es == Export(s).1.entries
    ensures InStep(Rehydrate(New(maxBytes, maxModules), es))
  {
    ExportedKeys(s);
    CanonicalMissesFit(New(maxBytes, maxModules), es);
    ImportInStep(New(maxBytes, maxModules), es);
  }

  lemma RestartInStep(w: World, s: State, maxBytes: nat, maxModules: nat)
    requires s.Valid() && InStep(s.cache)
    ensures InStep(Step(w, s, RestartOp(maxBytes, maxModules)).0.cache)
  {
    RestartedInStep(s, maxBytes, maxModules, Export(s).1.entries);
  }

  lemma ImportStepInStep(w: World, s: State, m: CacheManifest)
    requires s.Valid() && InStep(s.cache)
    ensures InStep(Step(w, s, ImportOp(m)).0.cache) <==> MissesFit(s.cache, m.entries)
  {
    ImportInStep(s.cache, m.entries);
  }

  /** Every call keeps entries and misses in step, an import exactly if its misses fit. */
  lemma StepInStep(w: World, s: State, op: Op)
    requires s.Valid() && InStep(s.cache)
    ensures InStep(Step(w, s, op).0.cache) <==> (op.ImportOp? ==> MissesFit(s.cache, op.manifest.entries))
  {
    match op {
      case ResolveOp(token, addr, now) => CallInStep(w, s, token, addr, now);
      case NameOp(token, addr, now) => CallInStep(w, s, token, addr, now);
      case EvictOp(token) => EvictInStep(w, s, token);
      case EvictAllOp => EvictInStep(w, s, "");
      case ExportOp => SyncInStep(w, s);
      case RestartOp(maxBytes, maxModules) => RestartInStep(w, s, maxBytes, maxModules);
      case AddSourceOp(_) => SourcesKeep(w, s, op);
      case DropSourceOp(_) => SourcesKeep(w, s, op);
      case ImportOp(m) => ImportStepInStep(w, s, m);
    }
  }

  lemma CallKeys(w: World, s: State, token: string, addr: U64, now: nat)
    requires s.Valid()
    ensures KeysGrow(s.cache, Step(w, s, ResolveOp(token, addr, now)).0.cache)
    ensures KeysGrow(s.cache, Step(w, s, NameOp(token, addr, now)).0.cache)
  {
    var found := LookUp(w, s.catalog.sources, s.limits, token);
    CalledKeys(s.cache, found, token, now);
    ResolveCalls(s, found, token, addr, now);
    NameCalls(s, found, token, addr, now);
  }

  lemma SameKeys(c: Cache, d: Cache)
    requires d.entries.Keys == c.entries.Keys
    ensures KeysGrow(c, d)
  {
  }

  lemma EvictTokenKeys(c: Cache, token: string)
    requires Caches.Valid(c)
    ensures KeysGrow(c, EvictToken(c, token).0)
  {
    EvictTokenKeeps(c, token);
    SameKeys(c, EvictToken(c, token).0);
  }

  lemma EvictAllKeys(c: Cache)
    requires Caches.Valid(c)
    ensures KeysGrow(c, EvictAll(c).0)
  {
    EvictAllKeeps(c);
    SameKeys(c, EvictAll(c).0);
  }

  lemma EvictKeys(w: World, s: State, token: string)
    requires s.Valid()
    ensures KeysGrow(s.cache, Step(w, s, EvictOp(token)).0.cache)
    ensures KeysGrow(s.cache, Step(w, s, EvictAllOp).0.cache)
  {
    EvictTokenKeys(s.cache, token);
    EvictAllKeys(s.cache);
  }

  lemma ExportKeys(w: World, s: State)
    requires s.Valid()
    ensures KeysGrow(s.cache, Step(w, s, ExportOp).0.cache)
  {
    SameKeys(s.cache, Sync(s.cache));
  }

  lemma RestartStepKeys(w: World, s: State, maxBytes: nat, maxModules: nat)
    requires s.Valid()
    ensures KeysGrow(s.cache, Step(w, s, RestartOp(maxBytes, maxModules)).0.cache)
  {
    RestartKeys(s, maxBytes, maxModules);
    SameKeys(s.cache, Restart(s, maxBytes, maxModules).cache);
  }

  lemma RestartKeys(s: State, maxBytes: nat, maxModules: nat)
    requires s.Valid()
    ensures Restart(s, maxBytes, maxModules).cache.entries.Keys == s.cache.entries.Keys
  {
    SyncKeeps(s.cache);
    EntriesKeyed(Sync(s.cache));
    ExportLists(s);
    var c, es := New(maxBytes, maxModules), Export(s).1.entries;
    forall t ensures t in Rehydrate(c, es).entries <==> t in s.cache.entries {
      LoadedEntry(c, es, |es|, t);
      ListedKey(es, Sync(s.cache).entries, t);
    }
  }

  lemma ListedKey(es: seq<ManifestEntry>, entries: map<string, ManifestEntry>, t: string)
    requires IsListing(es, entries) && forall k :: k in entries ==> entries[k].debugId == k
    ensures IsKey(es, |es|, t) <==> t in entries
  {
    if t in entries {
      assert entries[t] in es;
    }
    if i :| 0 <= i < |es| && es[i].debugId == t {
      assert es[i] in es;
    }
  }

  lemma ImportedKeys(c: Cache, es: seq<ManifestEntry>)
    ensures c.entries.Keys <= Rehydrate(c, es).entries.Keys
  {
    forall t | t in c.entries ensures t in Rehydrate(c, es).entries { LoadedEntry(c, es, |es|, t); }
  }

  lemma ImportKeys(w: World, s: State, m: CacheManifest)
    requires s.Valid()
    ensures s.cache.entries.Keys <= Step(w, s, ImportOp(m)).0.cache.entries.Keys
  {
    ImportedKeys(s.cache, m.entries);
  }

  /** No call loses an entry key, imports of any manifest included, and any other call adds canonical ones only. */
  lemma StepKeys(w: World, s: State, op: Op)
    requires s.Valid()
    ensures s.cache.entries.Keys <= Step(w, s, op).0.cache.entries.Keys
    ensures !op.ImportOp? ==> KeysGrow(s.cache, Step(w, s, op).0.cache)
  {
    match op {
      case ResolveOp(token, addr, now) => CallKeys(w, s, token, addr, now);
      case NameOp(token, addr, now) => CallKeys(w, s, token, addr, now);
      case EvictOp(token) => EvictKeys(w, s, token);
      case EvictAllOp => EvictKeys(w, s, "");
      case ExportOp => ExportKeys(w, s);
      case RestartOp(maxBytes, maxModules) => RestartStepKeys(w, s, maxBytes, maxModules);
      case AddSourceOp(_) => SourcesKeep(w, s, op);
      case DropSourceOp(_) => SourcesKeep(w, s, op);
      case ImportOp(m) => ImportKeys(w, s, m);
    }
  }

  /** Without imports every entry key stays canonical. */
  lemma StepKeepsKeyed(w: World, s: State, op: Op)
    requires s.Valid() && Keyed(s.cache) && !op.ImportOp?
    ensures Keyed(Step(w, s, op).0.cache)
  {
    StepInStep(w, s, op);
    StepKeys(w, s, op);
  }
}
