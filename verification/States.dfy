/**
 The worker state as a value (state.rs): sources, cache and limits, the resolve flow that ties them
 together, and the manifest hand-over. Every public call is a step of a state machine over a file
 world that does not change.
 */
module States {

  import opened Wrappers
  import opened Frames
  import opened Manifest
  import opened Modules
  import opened Local
  import opened Catalogs
  import opened Index
  import opened Caches
  import opened CacheFacts
  import opened Listing

  datatype State = State(catalog: Catalog, cache: Cache, limits: Limits)
  {
    ghost predicate Valid() {
      Caches.Valid(cache)
    }
  }

  function Fresh(maxBytes: nat, maxModules: nat, limits: Limits): State {
    State(EMPTY, New(maxBytes, maxModules), limits)
  }

  // ---- the resolve flow ----------------------------------------------------

  /** What `ensure_resident` reports. */
  datatype Ensured = Ready | Absent | Malformed(kind: ErrorKind)

  /** The module a token's file parses to, or why there is none. */
  datatype Lookedup = NoFile | BadFile(kind: ErrorKind) | Good(parsed: ParsedModule, origin: Origin)

  /** Locate and parse, without any cache. */
  function LookUp(w: World, sources: seq<SourceSpec>, limits: Limits, token: string): Lookedup {
    match Locate(w, sources, token)
    case None => NoFile
    case Some(located) =>
      match Parse(located.data, located.name, limits)
      case Failure(kind) => BadFile(kind)
      case Success(m) => Good(m, located.origin)
  }

  /** `ensure_resident`, given what locating and parsing the token's file would yield. */
  ghost function Ensure(s: State, found: Lookedup, token: string, now: nat): (State, Ensured)
    requires s.Valid()
  {
    if s.cache.IsResident(token) then (s, Ready)
    else if s.cache.IsKnownMiss(token) then (s, Absent)
    else
      match found
      case NoFile => (s.(cache := RecordMiss(s.cache, token, now)), Absent)
      case BadFile(kind) => (s, Malformed(kind))
      case Good(m, origin) => (s.(cache := Insert(s.cache, m, origin, now)), Ready)
  }

  ghost function EnsureResident(w: World, s: State, token: string, now: nat): (State, Ensured)
    requires s.Valid()
  {
    Ensure(s, LookUp(w, s.catalog.sources, s.limits, token), token, now)
  }

  /** `resolve`, given what locating and parsing the token's file would yield. */
  ghost function ResolveFound(s: State, found: Lookedup, token: string, addr: U64, now: nat)
    : (State, seq<ResolvedFrame>)
    requires s.Valid()
  {
    var (hit, frames) := Caches.Resolve(s.cache, token, addr, s.limits, now);
    if frames.Some? then (s.(cache := hit), frames.value)
    else
      var (s', ensured) := Ensure(s, found, token, now);
      match ensured
      case Ready =>
        var (c, again) := Caches.Resolve(s'.cache, token, addr, s.limits, now);
        (s'.(cache := c), again.GetOr([NotFoundRow()]))
      case Absent => (s', [NotFoundRow()])
      case Malformed(kind) => (s', [ErrorRow(kind, None)])
  }

  /** Every answer has between 1 and max(1, cap) rows, in shape. */
  ghost function Resolve(w: World, s: State, token: string, addr: U64, now: nat): (r: (State, seq<ResolvedFrame>))
    requires s.Valid()
    ensures WellShaped(r.1, s.limits.maxInlineDepth)
  {
    ResolveFound(s, LookUp(w, s.catalog.sources, s.limits, token), token, addr, now)
  }

  /** `function_name`, given what locating and parsing the token's file would yield. */
  ghost function NameFound(s: State, found: Lookedup, token: string, addr: U64, now: nat): (State, Option<string>)
    requires s.Valid()
  {
    var (hit, name) := Caches.FunctionName(s.cache, token, addr, now);
    if name.Some? then (s.(cache := hit), name.value)
    else
      var (s', ensured) := Ensure(s, found, token, now);
      if ensured.Ready? then
        var (c, again) := Caches.FunctionName(s'.cache, token, addr, now);
        (s'.(cache := c), match again case Some(n) => n case None => None)
      else (s', None)
  }

  ghost function FunctionName(w: World, s: State, token: string, addr: U64, now: nat): (State, Option<string>)
    requires s.Valid()
  {
    NameFound(s, LookUp(w, s.catalog.sources, s.limits, token), token, addr, now)
  }

  // ---- the manifest --------------------------------------------------------

  ghost function Export(s: State): (State, CacheManifest) {
    (s.(cache := Sync(s.cache)), CacheManifest(s.catalog.sources, ListingOf(Sync(s.cache).entries)))
  }

  /** An export lists the synced entries. */
  lemma ExportLists(s: State)
    requires s.Valid()
    ensures IsListing(Export(s).1.entries, Sync(s.cache).entries)
  {
    SyncKeeps(s.cache);
    EntriesKeyed(Sync(s.cache));
    ListingOfLists(Sync(s.cache).entries);
  }

  function Import(s: State, m: CacheManifest): State {
    s.(catalog := Restore(s.catalog, m.sources), cache := Rehydrate(s.cache, m.entries))
  }

  /** A new process, with budgets of its own, takes over the exported manifest. */
  ghost function Restart(s: State, maxBytes: nat, maxModules: nat): State {
    Import(Fresh(maxBytes, maxModules, s.limits), Export(s).1)
  }

  // ---- steps and runs ------------------------------------------------------

  datatype Op =
    | ResolveOp(token: string, addr: U64, now: nat)
    | NameOp(token: string, addr: U64, now: nat)
    | EvictOp(token: string)
    | EvictAllOp
    | ExportOp
    | RestartOp(maxBytes: nat, maxModules: nat)
    | AddSourceOp(request: SourceRequest)
    | DropSourceOp(id: string)
    | ImportOp(manifest: CacheManifest)

  datatype Answer =
    | Rows(rows: seq<ResolvedFrame>)
    | Name(name: Option<string>)
    | Freed(bytes: nat)
    | Exported(manifest: CacheManifest)
    | Added(result: Result<string, string>)
    | Done

  ghost function Step(w: World, s: State, op: Op): (State, Answer)
    requires s.Valid()
  {
    match op
    case ResolveOp(token, addr, now) => var (s', rows) := Resolve(w, s, token, addr, now); (s', Rows(rows))
    case NameOp(token, addr, now) => var (s', name) := FunctionName(w, s, token, addr, now); (s', Name(name))
    case EvictOp(token) => var (c, freed) := EvictToken(s.cache, token); (s.(cache := c), Freed(freed))
    case EvictAllOp => var (c, freed) := EvictAll(s.cache); (s.(cache := c), Freed(freed))
    case ExportOp => var (s', m) := Export(s); (s', Exported(m))
    case RestartOp(maxBytes, maxModules) => (Restart(s, maxBytes, maxModules), Done)
    case AddSourceOp(r) => var (c, result) := Add(s.catalog, r); (s.(catalog := c), Added(result))
    case DropSourceOp(id) => (s.(catalog := Drop(s.catalog, id)), Done)
    case ImportOp(m) => (Import(s, m), Done)
  }

  // ---- what a call does to the cache -----------------------------------------

  /**
   The cache after a call of either kind: a hit, a known miss, a recorded miss, a failed parse, or
   a parse and a hit.
   */
  ghost function Called(c: Cache, found: Lookedup, token: string, now: nat): Cache
    requires Caches.Valid(c)
  {
    if c.IsResident(token) || c.IsKnownMiss(token) then Answered(c, token, now)
    else
      match found
      case NoFile => RecordMiss(c, token, now)
      case BadFile(_) => c
      case Good(m, origin) => Answered(Insert(c, m, origin, now), token, now)
  }

  function Answered(c: Cache, token: string, now: nat): Cache {
    if c.IsResident(token) then Use(c, c.DebugIdOf(token).value, now) else c
  }

  lemma ResolveCalls(s: State, found: Lookedup, token: string, addr: U64, now: nat)
    requires s.Valid()
    ensures ResolveFound(s, found, token, addr, now).0 == s.(cache := Called(s.cache, found, token, now))
  {
  }

  lemma NameCalls(s: State, found: Lookedup, token: string, addr: U64, now: nat)
    requires s.Valid()
    ensures NameFound(s, found, token, addr, now).0 == s.(cache := Called(s.cache, found, token, now))
  {
  }

  lemma AnsweredKeeps(c: Cache, token: string, now: nat)
    requires Caches.Valid(c)
    ensures Caches.Valid(Answered(c, token, now))
  {
    if c.IsResident(token) { UseKeeps(c, c.DebugIdOf(token).value, now); }
  }

  lemma CalledKeeps(c: Cache, found: Lookedup, token: string, now: nat)
    requires Caches.Valid(c)
    ensures Caches.Valid(Called(c, found, token, now))
  {
    if c.IsResident(token) || c.IsKnownMiss(token) {
      AnsweredKeeps(c, token, now);
    } else if found.NoFile? {
      RecordMissKeeps(c, token, now);
    } else if found.Good? {
      InsertKeeps(c, found.parsed, found.origin, now);
      AnsweredKeeps(Insert(c, found.parsed, found.origin, now), token, now);
    }
  }

  lemma FreshValid(maxBytes: nat, maxModules: nat, limits: Limits)
    ensures Fresh(maxBytes, maxModules, limits).Valid()
  {
    NewValid(maxBytes, maxModules);
  }

  lemma ImportKeeps(s: State, m: CacheManifest)
    requires s.Valid()
    ensures Import(s, m).Valid()
  {
    LoadUpToKeeps(s.cache, m.entries, |m.entries|);
  }

  lemma RestartKeeps(s: State, maxBytes: nat, maxModules: nat)
    requires s.Valid()
    ensures Restart(s, maxBytes, maxModules).Valid()
  {
    FreshValid(maxBytes, maxModules, s.limits);
    ImportKeeps(Fresh(maxBytes, maxModules, s.limits), Export(s).1);
  }

  /**
   The fast path leaves exactly the state the full answer leaves: the same recency order,
   counters, entries and negative set.
   */
  lemma FastPathSameState(w: World, s: State, token: string, addr: U64, now: nat)
    requires s.Valid()
    ensures FunctionName(w, s, token, addr, now).0 == Resolve(w, s, token, addr, now).0
  {
    ResolveCalls(s, LookUp(w, s.catalog.sources, s.limits, token), token, addr, now);
    NameCalls(s, LookUp(w, s.catalog.sources, s.limits, token), token, addr, now);
  }

  lemma CallKeeps(w: World, s: State, token: string, addr: U64, now: nat)
    requires s.Valid()
    ensures Step(w, s, ResolveOp(token, addr, now)).0.Valid()
    ensures Step(w, s, NameOp(token, addr, now)).0.Valid()
  {
    var found := LookUp(w, s.catalog.sources, s.limits, token);
    CalledKeeps(s.cache, found, token, now);
    ResolveCalls(s, found, token, addr, now);
    NameCalls(s, found, token, addr, now);
  }

  lemma EvictKeeps(w: World, s: State, token: string)
    requires s.Valid()
    ensures Step(w, s, EvictOp(token)).0.Valid()
  {
    EvictTokenKeeps(s.cache, token);
  }

  lemma ClearKeeps(w: World, s: State)
    requires s.Valid()
    ensures Step(w, s, EvictAllOp).0.Valid()
  {
    EvictAllKeeps(s.cache);
  }

  lemma ExportKeeps(w: World, s: State)
    requires s.Valid()
    ensures Step(w, s, ExportOp).0.Valid()
  {
    SyncKeeps(s.cache);
  }


  lemma SourcesKeep(w: World, s: State, op: Op)
    requires s.Valid() && (op.AddSourceOp? || op.DropSourceOp?)
    ensures Step(w, s, op).0.Valid() && Step(w, s, op).0.cache == s.cache
  {
  }

  /** Every call keeps the cache's invariant, whatever the sources, budgets and manifests. */
  lemma StepKeepsValid(w: World, s: State, op: Op)
    requires s.Valid()
    ensures Step(w, s, op).0.Valid()
  {
    match op {
      case ResolveOp(token, addr, now) => CallKeeps(w, s, token, addr, now);
      case NameOp(token, addr, now) => CallKeeps(w, s, token, addr, now);
      case EvictOp(token) => EvictKeeps(w, s, token);
      case EvictAllOp => ClearKeeps(w, s);
      case ExportOp => ExportKeeps(w, s);
      case RestartOp(maxBytes, maxModules) => RestartKeeps(s, maxBytes, maxModules);
      case AddSourceOp(_) => SourcesKeep(w, s, op);
      case DropSourceOp(_) => SourcesKeep(w, s, op);
      case ImportOp(m) => ImportKeeps(s, m);
    }
  }

  /** The state after a run of calls. */
  ghost function After(w: World, s: State, ops: seq<Op>): (s': State)
    requires s.Valid()
    ensures s'.Valid()
  {
    if ops == [] then s
    else
      var before := After(w, s, ops[..|ops| - 1]);
      StepKeepsValid(w, before, ops[|ops| - 1]);
      Step(w, before, ops[|ops| - 1]).0
  }

  lemma AfterMore(w: World, s: State, ops: seq<Op>, op: Op)
    requires s.Valid()
    ensures After(w, s, ops + [op]) == Step(w, After(w, s, ops), op).0
  {
    assert (ops + [op])[..|ops|] == ops;
  }
}
