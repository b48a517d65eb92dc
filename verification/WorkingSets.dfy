/**
 Runs whose modules all fit the count cap: none is ever dropped, which a caller can tell from the
 calls and the files alone.
 */
module WorkingSets {

  import opened Wrappers
  import opened Manifest
  import opened Modules
  import opened Catalogs
  import opened Lru
  import opened Log
  import opened Caches
  import opened CacheFacts
  import opened States
  import opened Reference
  import opened Transparency
  import opened Unambiguous
  import opened Conservation
  import opened Counters
  import opened Inclusion

  /** The debug-ids of the modules a run asks for. */
  function AskedIds(x: Setting, ops: seq<Op>): set<string> {
    if ops == [] then {}
    else
      var last := ops[|ops| - 1];
      AskedIds(x, ops[..|ops| - 1]) + (if AsksModule(x, last) then {x.Find(last.token).parsed.DebugIdStr()} else {})
  }

  /** Only modules among `ids` are or were resident, there is room for all of them, and none was dropped. */
  ghost predicate Roomy(c: Cache, ids: set<string>) {
    c.Table().Keys <= ids && |ids| <= c.resident.cap && NoneDropped(c.log)
  }

  lemma {:induction false} SubsetCount<T>(a: set<T>, b: set<T>)
    requires a <= b
    ensures |a| <= |b|
  {
    if t :| t in a {
      SubsetCount(a - {t}, b - {t});
    }
  }

  lemma RoomForOneMore(c: Cache, ids: set<string>, id: string)
    requires c.resident.Ok() && Roomy(c, ids) && id in ids
    ensures !Drops(c.resident, id)
  {
    if id !in c.Table() {
      DistinctCount(c.Order(), c.Table().Keys);
      SubsetCount(c.Table().Keys, ids - {id});
    }
  }

  lemma NoneDroppedSince(before: seq<Event<string>>, after: seq<Event<string>>)
    requires NoneDropped(before) && OnlyEvictionsSince(before, after)
    ensures NoneDropped(after)
  {
  }

  lemma NoneDroppedMore(log: seq<Event<string>>, e: Event<string>)
    requires NoneDropped(log) && !e.Dropped?
    ensures NoneDropped(log + [e])
  {
  }

  lemma StoredDropsNone(c: Cache, id: string, r: Resident)
    requires NoneDropped(c.log) && !Drops(c.resident, id)
    ensures NoneDropped(Store(c, id, r).log)
  {
    var out := PushedOut(c.resident, id);
    if out == [] {
      assert c.log + out == c.log;
    } else {
      assert c.log + out == c.log + [out[0]];
      NoneDroppedMore(c.log, out[0]);
    }
    NoneDroppedMore(c.log + out, Inserted(id, r.bytes));
  }

  lemma InsertRoomy(c: Cache, m: ParsedModule, origin: Origin, now: nat, ids: set<string>)
    requires Valid(c) && Roomy(c, ids) && m.DebugIdStr() in ids
    ensures Roomy(Insert(c, m, origin, now), ids)
  {
    var s := Store(Register(c, m, origin, now), m.DebugIdStr(), FreshResident(m, now));
    RegisteredStored(c, m, origin, now);
    RoomForOneMore(c, ids, m.DebugIdStr());
    StoredDropsNone(Register(c, m, origin, now), m.DebugIdStr(), FreshResident(m, now));
    EvictToBudgetLog(s);
    NoneDroppedSince(s.log, EvictToBudget(s).log);
    InsertTable(c, m, origin, now);
    InsertMaps(c, m, origin, now);
  }

  lemma AnsweredRoomy(c: Cache, token: string, now: nat, ids: set<string>)
    requires Roomy(c, ids)
    ensures Roomy(Answered(c, token, now), ids)
  {
    if c.IsResident(token) { NoneDroppedMore(c.log, Hit(c.DebugIdOf(token).value)); }
  }

  lemma CalledRoomy(c: Cache, found: Lookedup, token: string, now: nat, ids: set<string>)
    requires Valid(c) && Roomy(c, ids) && (found.Good? ==> found.parsed.DebugIdStr() in ids)
    ensures Roomy(Called(c, found, token, now), ids)
  {
    AnsweredRoomy(c, token, now, ids);
    if found.Good? {
      InsertRoomy(c, found.parsed, found.origin, now, ids);
      AnsweredRoomy(Insert(c, found.parsed, found.origin, now), token, now, ids);
    }
  }

  lemma CallRoomy(x: Setting, s: State, token: string, addr: U64, now: nat, ids: set<string>)
    requires s.Valid() && x.Has(s) && Roomy(s.cache, ids)
    requires x.Find(token).Good? ==> x.Find(token).parsed.DebugIdStr() in ids
    ensures Roomy(States.Resolve(x.world, s, token, addr, now).0.cache, ids)
    ensures States.FunctionName(x.world, s, token, addr, now).0 == States.Resolve(x.world, s, token, addr, now).0
  {
    CalledRoomy(s.cache, x.Find(token), token, now, ids);
    ResolveCalls(s, x.Find(token), token, addr, now);
    NameCalls(s, x.Find(token), token, addr, now);
  }

  lemma EvictTokenRoomy(c: Cache, token: string, ids: set<string>)
    requires Valid(c) && Roomy(c, ids)
    ensures Roomy(EvictToken(c, token).0, ids)
  {
    EvictTokenKeeps(c, token);
    if c.IsResident(token) {
      NoneDroppedMore(c.log, Evicted(c.DebugIdOf(token).value, c.Table()[c.DebugIdOf(token).value].bytes));
    }
  }

  lemma EvictAllRoomy(c: Cache, ids: set<string>)
    requires Valid(c) && Roomy(c, ids)
    ensures Roomy(EvictAll(c).0, ids)
  {
    EvictAllKeeps(c);
    DrainLog(c);
    NoneDroppedSince(c.log, Drain(c).log);
    NoneDroppedMore(Drain(c).log, Cleared);
  }

  lemma RestartRoomy(s: State, maxBytes: nat, maxModules: nat, ids: set<string>)
    requires s.Valid() && |ids| <= Max(1, maxModules)
    ensures Roomy(Restart(s, maxBytes, maxModules).cache, ids)
  {
    LoadUpToResident(New(maxBytes, maxModules), Export(s).1.entries, |Export(s).1.entries|);
  }

  /** A call that asks for nothing outside `ids`, and a restart with room for them. */
  predicate AsksWithin(x: Setting, op: Op, ids: set<string>) {
    && Fixed(op)
    && (AsksModule(x, op) ==> x.Find(op.token).parsed.DebugIdStr() in ids)
    && (op.RestartOp? ==> |ids| <= Max(1, op.maxModules))
  }

  lemma StepRoomy(x: Setting, s: State, op: Op, ids: set<string>)
    requires Settled(x, s) && Roomy(s.cache, ids) && AsksWithin(x, op, ids)
    ensures Roomy(Step(x.world, s, op).0.cache, ids)
  {
    match op {
      case ResolveOp(token, addr, now) => CallRoomy(x, s, token, addr, now, ids);
      case NameOp(token, addr, now) => CallRoomy(x, s, token, addr, now, ids);
      case EvictOp(token) => EvictTokenRoomy(s.cache, token, ids);
      case EvictAllOp => EvictAllRoomy(s.cache, ids);
      case ExportOp =>
      case RestartOp(maxBytes, maxModules) => RestartRoomy(s, maxBytes, maxModules, ids);
    }
  }

  lemma {:induction false} RunRoomy(x: Setting, s: State, ops: seq<Op>, ids: set<string>)
    requires Settled(x, s) && Roomy(s.cache, ids) && forall i :: 0 <= i < |ops| ==> AsksWithin(x, ops[i], ids)
    ensures Settled(x, After(x.world, s, ops))
    ensures Roomy(After(x.world, s, ops).cache, ids) && NeverDrops(x, s, ops)
  {
    if ops != [] {
      RunRoomy(x, s, ops[..|ops| - 1], ids);
      StepSettled(x, After(x.world, s, ops[..|ops| - 1]), ops[|ops| - 1]);
      StepRoomy(x, After(x.world, s, ops[..|ops| - 1]), ops[|ops| - 1], ids);
    }
  }

  /** A run whose modules all fit the count cap, and that of every restart. */
  predicate WorkingSetFits(x: Setting, ops: seq<Op>, maxModules: nat) {
    && AllFixed(ops) && |AskedIds(x, ops)| <= Max(1, maxModules)
    && forall i :: 0 <= i < |ops| && ops[i].RestartOp? ==> |AskedIds(x, ops)| <= Max(1, ops[i].maxModules)
  }

  lemma {:induction false} AskedIsCounted(x: Setting, ops: seq<Op>, i: nat)
    requires i < |ops| && AsksModule(x, ops[i])
    ensures x.Find(ops[i].token).parsed.DebugIdStr() in AskedIds(x, ops)
  {
    if i < |ops| - 1 { AskedIsCounted(x, ops[..|ops| - 1], i); }
  }

  /** What a caller can check beforehand: if the modules asked for fit the count cap, none is ever dropped. */
  lemma FittingNeverDrops(x: Setting, catalog: Catalog, maxBytes: nat, maxModules: nat, ops: seq<Op>)
    requires catalog.sources == x.sources && WorkingSetFits(x, ops, maxModules)
    ensures Start(x, catalog, maxBytes, maxModules).Valid()
    ensures NeverDrops(x, Start(x, catalog, maxBytes, maxModules), ops)
  {
    StartSettled(x, catalog, maxBytes, maxModules);
    var ids := AskedIds(x, ops);
    forall i | 0 <= i < |ops| ensures AsksWithin(x, ops[i], ids) {
      if AsksModule(x, ops[i]) { AskedIsCounted(x, ops, i); }
    }
    RunRoomy(x, Start(x, catalog, maxBytes, maxModules), ops, ids);
  }

  /** Inclusion on runs whose modules fit the count cap, whatever the two byte budgets. */
  lemma FittingRunsInclude(x: Setting, catalog: Catalog, small: nat, large: nat, maxModules: nat, ops: seq<Op>)
    requires NoCompetition(x) && catalog.sources == x.sources && small <= large && WorkingSetFits(x, ops, maxModules)
    ensures Start(x, catalog, small, maxModules).Valid() && Start(x, catalog, large, maxModules).Valid()
    ensures var a := After(x.world, Start(x, catalog, small, maxModules), ops).cache;
            var b := After(x.world, Start(x, catalog, large, maxModules), ops).cache;
            a.Order() <= b.Order() && a.Table().Keys <= b.Table().Keys
    ensures AllParses(x, Start(x, catalog, large, maxModules), ops)
         <= AllParses(x, Start(x, catalog, small, maxModules), ops)
  {
    FittingNeverDrops(x, catalog, large, maxModules, ops);
    LargerBudgetIncludes(x, catalog, small, large, maxModules, ops, ops);
  }
}
