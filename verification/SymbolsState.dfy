/**
 The worker state as it runs (state.rs): a source registry and a cache driven together, each call
 proved to take the state where the state machine does.
 */
module SymbolsStates {

  import opened Wrappers
  import opened Frames
  import opened Manifest
  import opened Modules
  import opened Local
  import opened Catalogs
  import opened Registry
  import opened SymbolCaches
  import opened Listing
  import opened States
  import opened Answers
  import opened Calls

  class SymbolsState {
    const sources: SourceRegistry
    const cache: SymbolCache
    const limits: Limits

    ghost function Value(): State
      reads sources, cache
    {
      State(sources.Value(), cache.Value(), limits)
    }

    /** The registry serves all its local sources, and both parts keep their invariants. */
    ghost predicate Valid()
      reads sources, cache
    {
      sources.Valid() && sources.Complete() && cache.Valid()
    }

    /** `with_budgets`. */
    constructor (w: World, maxBytes: nat, maxModules: nat)
      ensures Valid() && Value() == Fresh(maxBytes, maxModules, DEFAULT_LIMITS) && sources.world == w
      ensures limits.maxParseBytes == 0x8000_0000 && limits.maxInlineDepth == 256
      ensures fresh(sources) && fresh(cache)
    {
      sources := new SourceRegistry(w);
      cache := new SymbolCache(maxBytes, maxModules);
      limits := DEFAULT_LIMITS;
    }

    /** `add_source`. */
    method AddSource(r: SourceRequest) returns (result: Result<string, string>)
      requires Valid()
      modifies sources
      ensures (Value().catalog, result) == Add(old(Value().catalog), r) && Value().cache == old(Value().cache)
      ensures Valid() <==> !(result.Success? && Skips(SpecOf(r, SourceId(old(sources.nextId))), old(sources.indexed)))
      ensures CounterAhead(old(Value().catalog)) && old(sources.nextId) < U64_MAX ==> Valid()
    {
      result := sources.Add(r);
    }

    /** `drop_source`. */
    method DropSource(id: string) returns (removed: bool)
      requires Valid()
      modifies sources
      ensures Valid() && Value() == old(Value()).(catalog := Drop(old(Value().catalog), id))
      ensures removed <==> sources.sources != old(sources.sources)
    {
      removed := sources.DropSource(id);
    }

    /** Locate and parse a token's file. */
    method LookUp(token: string) returns (found: Lookedup)
      requires sources.Valid() && sources.Complete()
      modifies sources
      ensures sources.Valid() && sources.Complete() && sources.Value() == old(sources.Value())
      ensures found == States.LookUp(sources.world, sources.Value().sources, limits, token)
    {
      var located := sources.Locate(token);
      match located {
        case None => return NoFile;
        case Some(file) =>
          match Parse(file.data, file.name, limits) {
            case Success(m) => return Good(m, file.origin);
            case Failure(kind) => return BadFile(kind);
          }
      }
    }

    /** `ensure_resident`. */
    method EnsureResident(token: string, now: nat) returns (ensured: Ensured)
      requires Valid()
      modifies sources, cache
      ensures Valid() && (Value(), ensured) == States.EnsureResident(sources.world, old(Value()), token, now)
    {
      if cache.IsResident(token) {
        return Ready;
      }
      if cache.IsKnownMiss(token) {
        return Absent;
      }
      var found := LookUp(token);
      match found {
        case NoFile =>
          cache.RecordMiss(token, now);
          return Absent;
        case Good(m, origin) =>
          var id := cache.Insert(m, origin, now);
          return Ready;
        case BadFile(kind) =>
          return Malformed(kind);
      }
    }

    /** `resolve`, with what it answers and leaves behind spelled out. */
    method Resolve(token: string, addr: U64, now: nat) returns (rows: seq<ResolvedFrame>)
      requires Valid()
      modifies sources, cache
      ensures Valid() && (Value(), Rows(rows)) == Step(sources.world, old(Value()), ResolveOp(token, addr, now))
      ensures CallAnswers(sources.world, old(Value()), token, addr, rows)
      ensures CallLeaves(sources.world, old(Value()), Value(), token, now)
    {
      ghost var before := Value();
      rows := ResolveToken(token, addr, now);
      ResolveAnswers(sources.world, before, token, addr, now);
      ResolveChanges(sources.world, before, token, addr, now);
    }

    /** The flow of `resolve`: the cache, else make the module resident and ask the cache again. */
    method ResolveToken(token: string, addr: U64, now: nat) returns (rows: seq<ResolvedFrame>)
      requires Valid()
      modifies sources, cache
      ensures Valid() && (Value(), rows) == States.Resolve(sources.world, old(Value()), token, addr, now)
    {
      var frames := cache.Resolve(token, addr, limits, now);
      if frames.Some? {
        return frames.value;
      }
      var ensured := EnsureResident(token, now);
      match ensured {
        case Ready =>
          var again := cache.Resolve(token, addr, limits, now);
          return again.GetOr([NotFoundRow()]);
        case Absent => return [NotFoundRow()];
        case Malformed(kind) => return [ErrorRow(kind, None)];
      }
    }

    /** `function_name`, with what it leaves behind spelled out. */
    method FunctionName(token: string, addr: U64, now: nat) returns (name: Option<string>)
      requires Valid()
      modifies sources, cache
      ensures Valid() && (Value(), Name(name)) == Step(sources.world, old(Value()), NameOp(token, addr, now))
      ensures CallLeaves(sources.world, old(Value()), Value(), token, now)
    {
      ghost var before := Value();
      name := NameToken(token, addr, now);
      ResolveChanges(sources.world, before, token, addr, now);
    }

    /** The flow of `function_name`, that of `resolve` with the cache's fast path. */
    method NameToken(token: string, addr: U64, now: nat) returns (name: Option<string>)
      requires Valid()
      modifies sources, cache
      ensures Valid() && (Value(), name) == States.FunctionName(sources.world, old(Value()), token, addr, now)
    {
      var hit := cache.FunctionName(token, addr, now);
      if hit.Some? {
        return hit.value;
      }
      var ensured := EnsureResident(token, now);
      if ensured.Ready? {
        var again := cache.FunctionName(token, addr, now);
        return match again case Some(n) => n case None => None;
      }
      return None;
    }

    /** `cache_evict` of one token. */
    method EvictToken(token: string) returns (freed: nat)
      requires Valid()
      modifies cache
      ensures Valid() && (Value(), Freed(freed)) == Step(sources.world, old(Value()), EvictOp(token))
    {
      freed := cache.EvictToken(token);
    }

    /** `cache_evict` of everything. */
    method EvictAll() returns (freed: nat)
      requires Valid()
      modifies cache
      ensures Valid() && (Value(), Freed(freed)) == Step(sources.world, old(Value()), EvictAllOp)
    {
      freed := cache.EvictAll();
    }

    /** `cache_status`. */
    method CacheStatus() returns (rows: seq<StatusRow>)
      requires Valid()
      ensures IsStatus(rows, cache.Value())
      ensures forall row :: row in rows ==> Shows(row, cache.Value())
    {
      rows := cache.Status();
    }

    /** `export_manifest`. */
    method ExportManifest() returns (manifest: CacheManifest)
      requires Valid()
      modifies cache
      ensures Valid() && (Value(), Exported(manifest)) == Step(sources.world, old(Value()), ExportOp)
    {
      ghost var before := Value();
      manifest := cache.ToManifest(sources.sources);
      ExportLists(before);
      ListingUnique(manifest.entries, States.Export(before).1.entries, cache.entries);
    }

    /** `import_manifest`. */
    method ImportManifest(manifest: CacheManifest)
      requires Valid()
      modifies sources, cache
      ensures Valid() && Value() == Import(old(Value()), manifest)
    {
      sources.Restore(manifest.sources);
      cache.Rehydrate(manifest.entries);
    }
  }
}
