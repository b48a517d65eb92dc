/**
 Every call, field by field, in terms of the state it meets and the located file: what it answers and
 everything it changes in sources, cache and limits.
 */
module Calls {

  import opened Wrappers
  import opened Ids
  import opened Manifest
  import opened Modules
  import opened Parsing
  import opened Local
  import opened Catalogs
  import opened Index
  import opened Caches
  import opened CacheFacts
  import opened Effects
  import opened Listing
  import opened States
  import opened Answers

  // ---- what a call changes ---------------------------------------------------

  /** The cache after a call about a token that is neither resident nor a known miss. */
  ghost predicate Uncached(c: Cache, d: Cache, located: Option<Located>, limits: Limits, token: string, now: nat) {
    match located
    case None => MissRecorded(c, d, token, now)
    case Some(l) =>
      if Malformation(l.data, limits).Some? then d == c
      else
        exists m, inserted ::
          && Parse(l.data, l.name, limits) == Success(m)
          && ModuleInserted(c, inserted, m, l.origin, now) && LookedUp(inserted, d, token, now)
  }

  /** The cache after any call: a hit, nothing, a recorded miss, or an insertion and a hit. */
  ghost predicate CallChanges(c: Cache, d: Cache, located: Option<Located>, limits: Limits, token: string, now: nat) {
    var t := CanonicalToken(token);
    if t in c.aliases && c.aliases[t] in c.resident.table then LookedUp(c, d, token, now)
    else if t in c.negative then d == c
    else Uncached(c, d, located, limits, token, now)
  }

  lemma AnsweredEffects(c: Cache, token: string, now: nat)
    requires c.resident.Ok()
    ensures LookedUp(c, Answered(c, token, now), token, now)
  {
    if c.IsResident(token) { HitEffects(c, c.DebugIdOf(token).value, now); }
  }

  lemma CalledGood(c: Cache, m: ParsedModule, origin: Origin, token: string, now: nat)
    requires Caches.Valid(c) && !c.IsResident(token) && !c.IsKnownMiss(token)
    ensures Called(c, Good(m, origin), token, now) == Answered(Insert(c, m, origin, now), token, now)
  {
  }

  lemma InsertedAndHit(c: Cache, inserted: Cache, d: Cache, m: ParsedModule, l: Located, limits: Limits, token: string,
                       now: nat)
    requires Malformation(l.data, limits).None? && Parse(l.data, l.name, limits) == Success(m)
    requires ModuleInserted(c, inserted, m, l.origin, now) && LookedUp(inserted, d, token, now)
    ensures Uncached(c, d, Some(l), limits, token, now)
  {
  }

  lemma GoodChanges(c: Cache, m: ParsedModule, l: Located, limits: Limits, token: string, now: nat)
    requires Caches.Valid(c) && !c.IsResident(token) && !c.IsKnownMiss(token)
    requires Malformation(l.data, limits).None? && Parse(l.data, l.name, limits) == Success(m)
    ensures Uncached(c, Called(c, Good(m, l.origin), token, now), Some(l), limits, token, now)
  {
    InsertEffects(c, m, l.origin, now);
    InsertKeeps(c, m, l.origin, now);
    AnsweredEffects(Insert(c, m, l.origin, now), token, now);
    CalledGood(c, m, l.origin, token, now);
    InsertedAndHit(c, Insert(c, m, l.origin, now), Called(c, Good(m, l.origin), token, now), m, l, limits, token, now);
  }

  lemma CalledChanges(c: Cache, located: Option<Located>, found: Lookedup, limits: Limits, token: string, now: nat)
    requires Caches.Valid(c) && IsOutcome(found, located, limits)
    ensures CallChanges(c, Called(c, found, token, now), located, limits, token, now)
  {
    if c.IsResident(token) {
      AnsweredEffects(c, token, now);
    } else if !c.IsKnownMiss(token) {
      if found.NoFile? {
        MissEffects(c, token, now);
      } else if found.Good? {
        GoodChanges(c, found.parsed, located.value, limits, token, now);
      }
    }
  }

  /** The state after a call: sources and limits as they were, and the cache as the located file decides. */
  ghost predicate CallLeaves(w: World, s: State, after: State, token: string, now: nat) {
    && after.catalog == s.catalog && after.limits == s.limits
    && CallChanges(s.cache, after.cache, Locate(w, s.catalog.sources, token), s.limits, token, now)
  }

  /**
   What resolve and function_name leave behind, in any state: sources and limits as they were, and
   of the cache only what a hit, a miss or the insertion of the located file's module changes.
   */
  lemma ResolveChanges(w: World, s: State, token: string, addr: U64, now: nat)
    requires s.Valid()
    ensures CallLeaves(w, s, States.Resolve(w, s, token, addr, now).0, token, now)
    ensures CallLeaves(w, s, States.FunctionName(w, s, token, addr, now).0, token, now)
  {
    var found := LookUp(w, s.catalog.sources, s.limits, token);
    LookUpOutcome(w, s, token);
    ResolveCalls(s, found, token, addr, now);
    NameCalls(s, found, token, addr, now);
    CalledChanges(s.cache, Locate(w, s.catalog.sources, token), found, s.limits, token, now);
  }

  // ---- every call --------------------------------------------------------------

  ghost predicate SameSettings(s: State, after: State) {
    after.catalog == s.catalog && after.limits == s.limits
  }

  /** The manifest lists the entries with live counters, and the cache keeps exactly those. */
  ghost predicate ExportLeaves(s: State, after: State, m: CacheManifest) {
    && SameSettings(s, after) && SameModules(s.cache, after.cache)
    && after.cache.aliases == s.cache.aliases && after.cache.negative == s.cache.negative
    && EntriesSynced(s.cache, after.cache.entries)
    && m.sources == s.catalog.sources && IsListing(m.entries, after.cache.entries)
  }

  ghost predicate AddLeaves(s: State, after: State, r: SourceRequest, result: Result<string, string>) {
    && after.cache == s.cache && after.limits == s.limits
    && SourceAdded(s.catalog, after.catalog, NormalKind(r.kind), r, result)
  }

  ghost predicate DropLeaves(s: State, after: State, id: string) {
    && after.cache == s.cache && after.limits == s.limits && after.catalog.nextId == s.catalog.nextId
    && forall spec :: spec in after.catalog.sources <==> spec in s.catalog.sources && spec.sourceId != id
  }

  ghost predicate ImportLeaves(s: State, after: State, m: CacheManifest) {
    && after.limits == s.limits && after.catalog.sources == m.sources
    && EntriesLoaded(s.cache, after.cache, m.entries, |m.entries|)
  }

  /** What a call answers and leaves behind, whichever call it is. */
  ghost predicate StepDoes(w: World, s: State, op: Op, after: State, answer: Answer) {
    match op
    case ResolveOp(token, addr, now) =>
      CallLeaves(w, s, after, token, now) && answer.Rows? && CallAnswers(w, s, token, addr, answer.rows)
    case NameOp(token, _, now) => CallLeaves(w, s, after, token, now) && answer.Name?
    case EvictOp(token) =>
      SameSettings(s, after) && answer.Freed? && TokenEvicted(s.cache, after.cache, token, answer.bytes)
    case EvictAllOp => SameSettings(s, after) && answer.Freed? && AllEvicted(s.cache, after.cache, answer.bytes)
    case ExportOp => answer.Exported? && ExportLeaves(s, after, answer.manifest)
    case RestartOp(maxBytes, _) =>
      after.limits == s.limits && after.catalog.sources == s.catalog.sources
      && after.cache.Table() == map[] && after.cache.maxBytes == maxBytes
    case AddSourceOp(r) => answer.Added? && AddLeaves(s, after, r, answer.result)
    case DropSourceOp(id) => DropLeaves(s, after, id)
    case ImportOp(m) => ImportLeaves(s, after, m)
  }

  lemma EvictDoes(w: World, s: State, op: Op)
    requires s.Valid() && (op.EvictOp? || op.EvictAllOp?)
    ensures StepDoes(w, s, op, Step(w, s, op).0, Step(w, s, op).1)
  {
    if op.EvictOp? {
      EvictEffects(s.cache, op.token);
    } else {
      EvictAllEffects(s.cache);
    }
  }

  lemma ExportDoes(w: World, s: State)
    requires s.Valid()
    ensures StepDoes(w, s, ExportOp, Step(w, s, ExportOp).0, Step(w, s, ExportOp).1)
  {
    ExportLists(s);
    SyncEffects(s.cache);
  }

  lemma RestartDoes(w: World, s: State, maxBytes: nat, maxModules: nat)
    ensures var op := RestartOp(maxBytes, maxModules);
            s.Valid() ==> StepDoes(w, s, op, Step(w, s, op).0, Step(w, s, op).1)
  {
    var es := Export(s).1.entries;
    LoadUpToResident(New(maxBytes, maxModules), es, |es|);
  }

  lemma SourcesDo(w: World, s: State, op: Op)
    requires s.Valid() && (op.AddSourceOp? || op.DropSourceOp?)
    ensures StepDoes(w, s, op, Step(w, s, op).0, Step(w, s, op).1)
  {
    if op.AddSourceOp? { var i, j := AddExact(s.catalog, op.request); }
  }

  lemma ImportDoes(w: World, s: State, m: CacheManifest)
    requires s.Valid()
    ensures StepDoes(w, s, ImportOp(m), Step(w, s, ImportOp(m)).0, Step(w, s, ImportOp(m)).1)
  {
    LoadEffects(s.cache, m.entries, |m.entries|);
  }

  lemma CallDoes(w: World, s: State, op: Op)
    requires s.Valid() && (op.ResolveOp? || op.NameOp?)
    ensures StepDoes(w, s, op, Step(w, s, op).0, Step(w, s, op).1)
  {
    ResolveChanges(w, s, op.token, op.addr, op.now);
    if op.ResolveOp? { ResolveAnswers(w, s, op.token, op.addr, op.now); }
  }

  /** Every call of the worker, field by field. */
  lemma StepExact(w: World, s: State, op: Op)
    requires s.Valid()
    ensures StepDoes(w, s, op, Step(w, s, op).0, Step(w, s, op).1)
  {
    match op {
      case ResolveOp(_, _, _) => CallDoes(w, s, op);
      case NameOp(_, _, _) => CallDoes(w, s, op);
      case EvictOp(_) => EvictDoes(w, s, op);
      case EvictAllOp => EvictDoes(w, s, op);
      case ExportOp => ExportDoes(w, s);
      case RestartOp(maxBytes, maxModules) => RestartDoes(w, s, maxBytes, maxModules);
      case AddSourceOp(_) => SourcesDo(w, s, op);
      case DropSourceOp(_) => SourcesDo(w, s, op);
      case ImportOp(m) => ImportDoes(w, s, m);
    }
  }
}
