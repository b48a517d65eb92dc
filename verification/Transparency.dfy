/**
 Cache transparency: with sources and files fixed, the cached worker answers every call of every
 run exactly as the uncached reference does - locate, parse, resolve - if and only if the alias
 index is coherent, a condition on the sources and files alone.
 */
module Transparency {

  import opened Wrappers
  import opened Ids
  import opened Manifest
  import opened Modules
  import opened Catalogs
  import opened Caches
  import opened CacheFacts
  import opened States
  import opened Keys
  import opened Reference

  // ---- runs -------------------------------------------------------------------------

  /** Calls that leave sources alone. A restart takes over its own exported manifest. */
  predicate Fixed(op: Op) {
    op.ResolveOp? || op.NameOp? || op.EvictOp? || op.EvictAllOp? || op.ExportOp? || op.RestartOp?
  }

  predicate AllFixed(ops: seq<Op>) {
    forall i :: 0 <= i < |ops| ==> Fixed(ops[i])
  }

  lemma SyncSound(x: Setting, c: Cache)
    requires Valid(c) && Sound(x, c)
    ensures Sound(x, Sync(c))
  {
    SyncKeeps(c);
    SoundFrame(x, c, Sync(c));
  }

  lemma LoadOneSound(x: Setting, c: Cache, e: ManifestEntry)
    requires Sound(x, c) && IsCanonical(e.debugId) && EntrySound(x, e)
    ensures Sound(x, Load(c, e))
  {
    var d := Load(c, e);
    assert AliasSound(x, e.debugId, e.debugId) by {
      if !e.miss {
        var u :| LeadsTo(x, u, e.debugId);
        AliasesCanonical(x.Find(u).parsed.Id());
      }
    }
    forall t | t in d.aliases ensures AliasSound(x, t, d.aliases[t]) {
      if t != e.debugId { assert AliasSound(x, t, c.aliases[t]); }
    }
    forall id | id in d.entries ensures EntrySound(x, d.entries[id]) {
      if id != e.debugId { assert EntrySound(x, c.entries[id]); }
    }
    forall id | id in d.Table() ensures ModuleSound(x, d.Table()[id].parsed) {
      assert ModuleSound(x, c.Table()[id].parsed);
    }
  }

  /** An entry an export of a sound cache carries. */
  ghost predicate Exportable(x: Setting, e: ManifestEntry) {
    IsCanonical(e.debugId) && EntrySound(x, e)
  }

  ghost predicate AllExportable(x: Setting, es: seq<ManifestEntry>) {
    forall i :: 0 <= i < |es| ==> Exportable(x, es[i])
  }

  /** The cache is sound with the first `n` entries loaded. */
  ghost predicate LoadedSound(x: Setting, c: Cache, es: seq<ManifestEntry>, n: nat)
    requires n <= |es|
  {
    Sound(x, LoadUpTo(c, es, n))
  }

  lemma NextLoaded(x: Setting, c: Cache, es: seq<ManifestEntry>, n: nat)
    requires 0 < n <= |es| && AllExportable(x, es) && LoadedSound(x, c, es, n - 1)
    ensures LoadedSound(x, c, es, n)
  {
    assert Exportable(x, es[n - 1]);
    LoadOneSound(x, LoadUpTo(c, es, n - 1), es[n - 1]);
  }

  /** What holds at first and is kept by each step holds after all steps. */
  lemma {:induction false} EveryStep(p: nat -> bool, n: nat)
    requires p(0) && forall k: nat :: 0 < k <= n && p(k - 1) ==> p(k)
    ensures p(n)
  {
    if n > 0 { EveryStep(p, n - 1); }
  }

  lemma LoadSound(x: Setting, c: Cache, es: seq<ManifestEntry>)
    requires AllExportable(x, es) && LoadedSound(x, c, es, 0)
    ensures LoadedSound(x, c, es, |es|)
  {
    ghost var sound := (k: nat) => k <= |es| && LoadedSound(x, c, es, k);
    forall k: nat | 0 < k <= |es| && sound(k - 1) ensures sound(k) {
      NextLoaded(x, c, es, k);
    }
    EveryStep(sound, |es|);
  }

  lemma ExportedSound(x: Setting, s: State)
    requires s.Valid() && Keyed(s.cache) && Sound(x, s.cache)
    ensures AllExportable(x, Export(s).1.entries)
  {
    ExportedKeys(s);
    ExportLists(s);
    SyncSound(x, s.cache);
    var es := Export(s).1.entries;
    forall i | 0 <= i < |es| ensures Exportable(x, es[i]) {
      assert es[i] in es;
      assert EntrySound(x, Sync(s.cache).entries[es[i].debugId]);
    }
  }

  lemma RestartSound(x: Setting, s: State, maxBytes: nat, maxModules: nat)
    requires s.Valid() && Keyed(s.cache) && x.Has(s) && Sound(x, s.cache)
    ensures var s' := Restart(s, maxBytes, maxModules);
            Sound(x, s'.cache) && x.Has(s')
  {
    ExportedSound(x, s);
    LoadSound(x, New(maxBytes, maxModules), Export(s).1.entries);
  }

  // ---- soundness over runs --------------------------------------------------------

  /** What holds of a worker in a setting at every moment of a run. */
  ghost predicate Settled(x: Setting, s: State) {
    s.Valid() && Keyed(s.cache) && x.Has(s) && Sound(x, s.cache)
  }

  lemma StepSettled(x: Setting, s: State, op: Op)
    requires Settled(x, s) && Fixed(op)
    ensures Settled(x, Step(x.world, s, op).0)
  {
    StepKeepsValid(x.world, s, op);
    StepKeepsKeyed(x.world, s, op);
    match op {
      case ResolveOp(token, addr, now) => CallSound(x, s, token, addr, now);
      case NameOp(token, addr, now) => CallSound(x, s, token, addr, now);
      case EvictOp(token) => EvictTokenSound(x, s.cache, token);
      case EvictAllOp => EvictAllSound(x, s.cache);
      case ExportOp => SyncSound(x, s.cache);
      case RestartOp(maxBytes, maxModules) => RestartSound(x, s, maxBytes, maxModules);
    }
  }

  lemma CallSound(x: Setting, s: State, token: string, addr: U64, now: nat)
    requires s.Valid() && x.Has(s) && Sound(x, s.cache)
    ensures x.Has(States.Resolve(x.world, s, token, addr, now).0)
    ensures Sound(x, States.Resolve(x.world, s, token, addr, now).0.cache)
    ensures States.FunctionName(x.world, s, token, addr, now).0 == States.Resolve(x.world, s, token, addr, now).0
  {
    CalledSound(x, s.cache, x.Find(token), token, now);
    ResolveCalls(s, x.Find(token), token, addr, now);
    NameCalls(s, x.Find(token), token, addr, now);
  }

  lemma EvictTokenSound(x: Setting, c: Cache, token: string)
    requires Valid(c) && Sound(x, c)
    ensures Sound(x, EvictToken(c, token).0)
  {
    EvictTokenKeeps(c, token);
    EvictedSound(x, c, EvictToken(c, token).0);
  }

  lemma EvictAllSound(x: Setting, c: Cache)
    requires Valid(c) && Sound(x, c)
    ensures Sound(x, EvictAll(c).0)
  {
    EvictAllKeeps(c);
    EvictedSound(x, c, EvictAll(c).0);
  }

  lemma {:induction false} RunSettled(x: Setting, s: State, ops: seq<Op>)
    requires Settled(x, s) && AllFixed(ops)
    ensures Settled(x, After(x.world, s, ops))
  {
    if ops != [] {
      RunSettled(x, s, ops[..|ops| - 1]);
      StepSettled(x, After(x.world, s, ops[..|ops| - 1]), ops[|ops| - 1]);
    }
  }

  /** A worker with an empty cache, whatever its budgets and its list of sources. */
  function Start(x: Setting, catalog: Catalog, maxBytes: nat, maxModules: nat): State {
    State(catalog, New(maxBytes, maxModules), x.limits)
  }

  lemma StartSettled(x: Setting, catalog: Catalog, maxBytes: nat, maxModules: nat)
    requires catalog.sources == x.sources
    ensures Settled(x, Start(x, catalog, maxBytes, maxModules))
  {
    NewValid(maxBytes, maxModules);
  }

  // ---- the theorem ------------------------------------------------------------------

  /** After any run, every resolve and every function_name call answers as the reference does. */
  ghost predicate Transparent(x: Setting, s: State)
    requires s.Valid()
  {
    forall ops: seq<Op>, token: string, addr: U64, now: nat :: AllFixed(ops) ==>
      && States.Resolve(x.world, After(x.world, s, ops), token, addr, now).1 == x.Rows(token, addr)
      && States.FunctionName(x.world, After(x.world, s, ops), token, addr, now).1 == x.Name(token, addr)
  }

  lemma CoherentIsTransparent(x: Setting, s: State)
    requires ProbeAgrees(x.world) && Coherent(x) && Settled(x, s)
    ensures Transparent(x, s)
  {
    forall ops: seq<Op>, token: string, addr: U64, now: nat | AllFixed(ops)
      ensures States.Resolve(x.world, After(x.world, s, ops), token, addr, now).1 == x.Rows(token, addr)
      ensures States.FunctionName(x.world, After(x.world, s, ops), token, addr, now).1 == x.Name(token, addr)
    {
      RunSettled(x, s, ops);
      ResolveLikeReference(x, After(x.world, s, ops), token, addr, now);
    }
  }

  /** Once a token has been resolved, all aliases of its module lead to that module. */
  lemma FirstCalled(c: Cache, found: Lookedup, u: string, t: string)
    requires Valid(c) && c.aliases == map[] && c.negative == {}
    requires found.Good? && t in found.parsed.Id().Aliases() && CanonicalToken(u) in found.parsed.Id().Aliases()
    ensures var d := Called(c, found, u, 0);
            d.IsResident(t) && d.Table()[d.DebugIdOf(t).value].parsed == found.parsed
  {
    AliasesCanonical(found.parsed.Id());
    FirstInserted(c, found.parsed, found.origin, t);
    FirstInserted(c, found.parsed, found.origin, CanonicalToken(u));
    FirstParses(c, found, u);
    StillLeads(Insert(c, found.parsed, found.origin, 0), u, t, found.parsed.DebugIdStr());
  }

  lemma FirstParses(c: Cache, found: Lookedup, u: string)
    requires Valid(c) && c.aliases == map[] && c.negative == {} && found.Good?
    ensures Called(c, found, u, 0) == Answered(Insert(c, found.parsed, found.origin, 0), u, 0)
  {
  }

  /** A hit on a module leaves the module where it was. */
  lemma StillLeads(d: Cache, u: string, t: string, id: string)
    requires d.IsResident(u) && d.DebugIdOf(u) == Some(id) && d.DebugIdOf(t) == Some(id)
    ensures var e := Answered(d, u, 0);
            e.IsResident(t) && e.DebugIdOf(t) == Some(id) && e.Table()[id].parsed == d.Table()[id].parsed
  {
  }

  lemma FirstInserted(c: Cache, m: ParsedModule, origin: Origin, t: string)
    requires Valid(c) && t in m.Id().Aliases() && IsCanonical(t)
    ensures var d := Insert(c, m, origin, 0);
            d.DebugIdOf(t) == Some(m.DebugIdStr()) && d.IsResident(t) && d.Table()[m.DebugIdStr()].parsed == m
  {
    InsertIsLru(c, m, origin, 0);
    InsertMaps(c, m, origin, 0);
  }

  lemma TransparentIsCoherent(x: Setting, s: State)
    requires ProbeAgrees(x.world) && s.Valid() && x.Has(s) && s.cache.aliases == map[] && s.cache.negative == {}
    requires Transparent(x, s)
    ensures Coherent(x)
  {
    forall u, t | x.Find(u).Good? && t in x.Find(u).parsed.Id().Aliases() ensures AnswersAs(x, t, x.Find(u).parsed) {
      TransparentAlias(x, s, x.Find(u), u, t);
    }
  }

  lemma TransparentAlias(x: Setting, s: State, found: Lookedup, u: string, t: string)
    requires ProbeAgrees(x.world) && s.Valid() && x.Has(s) && s.cache.aliases == map[] && s.cache.negative == {}
    requires Transparent(x, s) && found == x.Find(u) && found.Good? && t in found.parsed.Id().Aliases()
    ensures AnswersAs(x, t, found.parsed)
  {
    var ops := ResidentAfterOne(x, s, found, u, t);
    TransparentResident(x, s, ops, t, found.parsed);
  }

  lemma TransparentResident(x: Setting, s: State, ops: seq<Op>, t: string, m: ParsedModule)
    requires s.Valid() && Transparent(x, s) && AllFixed(ops)
    requires var s' := After(x.world, s, ops);
             && s'.limits == x.limits && s'.cache.IsResident(t)
             && s'.cache.Table()[s'.cache.DebugIdOf(t).value].parsed == m
    ensures AnswersAs(x, t, m)
  {
    TransparentAfter(x, s, ops, t);
    ResidentIsReference(x, After(x.world, s, ops), t, m);
  }

  lemma ResidentAfterOne(x: Setting, s: State, found: Lookedup, u: string, t: string) returns (ops: seq<Op>)
    requires ProbeAgrees(x.world) && s.Valid() && x.Has(s) && s.cache.aliases == map[] && s.cache.negative == {}
    requires found == x.Find(u) && found.Good? && t in found.parsed.Id().Aliases()
    ensures AllFixed(ops)
    ensures var s' := After(x.world, s, ops);
            && s'.limits == x.limits && s'.cache.IsResident(t)
            && s'.cache.Table()[s'.cache.DebugIdOf(t).value].parsed == found.parsed
  {
    ops := [] + [ResolveOp(u, 0, 0)];
    AfterMore(x.world, s, [], ResolveOp(u, 0, 0));
    FoundUnderAlias(x, u);
    FirstCalled(s.cache, found, u, t);
    ResolveCalls(s, found, u, 0, 0);
  }

  lemma TransparentAfter(x: Setting, s: State, ops: seq<Op>, t: string)
    requires s.Valid() && Transparent(x, s) && AllFixed(ops)
    ensures forall addr: U64 :: States.Resolve(x.world, After(x.world, s, ops), t, addr, 0).1 == x.Rows(t, addr)
    ensures forall addr: U64 :: States.FunctionName(x.world, After(x.world, s, ops), t, addr, 0).1 == x.Name(t, addr)
  {
  }

  /** Where the reference's answers are given and `m` is resident for `t`, the reference answers as `m`. */
  lemma ResidentIsReference(x: Setting, s: State, t: string, m: ParsedModule)
    requires s.Valid() && s.limits == x.limits && s.cache.IsResident(t)
    requires s.cache.Table()[s.cache.DebugIdOf(t).value].parsed == m
    requires forall addr: U64 :: States.Resolve(x.world, s, t, addr, 0).1 == x.Rows(t, addr)
    requires forall addr: U64 :: States.FunctionName(x.world, s, t, addr, 0).1 == x.Name(t, addr)
    ensures AnswersAs(x, t, m)
  {
    forall addr: U64
      ensures x.Rows(t, addr) == m.Answer(addr, x.limits) && x.Name(t, addr) == m.FunctionName(addr)
    {
      assert States.Resolve(x.world, s, t, addr, 0).1 == x.Rows(t, addr);
      assert States.FunctionName(x.world, s, t, addr, 0).1 == x.Name(t, addr);
    }
  }

  /**
   Cache transparency, exactly: for all budgets, every run of resolve, function_name, evict, export
   and restart calls is answered as if there were no cache, if and only if the files are coherent.
   */
  lemma TransparencyExact(x: Setting, catalog: Catalog, maxBytes: nat, maxModules: nat)
    requires ProbeAgrees(x.world) && catalog.sources == x.sources
    ensures Start(x, catalog, maxBytes, maxModules).Valid()
    ensures Transparent(x, Start(x, catalog, maxBytes, maxModules)) <==> Coherent(x)
  {
    var s := Start(x, catalog, maxBytes, maxModules);
    StartSettled(x, catalog, maxBytes, maxModules);
    if Coherent(x) {
      CoherentIsTransparent(x, s);
    }
    if Transparent(x, s) {
      TransparentIsCoherent(x, s);
    }
  }
}
