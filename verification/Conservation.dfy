/**
 Conservation over whole runs: every parse is a resident module or a removal, every counted row is
 a hit since the module's latest insertion, and the byte counter is off by exactly the bytes that
 were silently dropped at count capacity.
 */
module Conservation {

  import opened Wrappers
  import opened Ids
  import opened Manifest
  import opened Modules
  import opened Catalogs
  import opened Lru
  import opened Log
  import opened Caches
  import opened CacheFacts
  import opened States
  import opened Reference
  import opened Transparency
  import opened Unambiguous

  // ---- parses ------------------------------------------------------------------

  lemma {:induction false} DistinctCount<K(!new)>(s: seq<K>, members: set<K>)
    requires Distinct(s) && forall k :: k in members <==> k in s
    ensures |members| == |s|
  {
    if s == [] {
      assert forall k :: k !in members;
      assert members == {};
    } else {
      var front, last := s[..|s| - 1], s[|s| - 1];
      assert s == front + [last];
      assert last !in front;
      DistinctCount(front, members - {last});
    }
  }

  /** Every parse so far is a module that is still resident or one that was removed, each once. */
  lemma ParsesConserved(c: Cache)
    requires Valid(c)
    ensures c.parseCount == |c.Order()| + RemovedCount(c.log)
  {
    var live := c.Table().Keys;
    forall id: string ensures id in live <==> Live(c.log, id).Some? {
      assert Live(c.log, id) == InfoAt(c.Table(), id);
    }
    ModulesConserved(c.log, live);
    DistinctCount(c.Order(), live);
  }

  // ---- no module is parsed over its own resident copy ------------------------------

  ghost predicate PointsHere(c: Cache, id: string)
    requires id in c.Table()
  {
    forall t :: t in c.Table()[id].parsed.Id().Aliases() ==> t in c.aliases && c.aliases[t] == id
  }

  /** Every alias of a resident module leads to it. */
  ghost predicate Pointed(c: Cache) {
    forall id :: id in c.Table() ==> PointsHere(c, id)
  }

  ghost predicate NoneReplaced(log: seq<Event<string>>) {
    forall i :: 0 <= i < |log| ==> !log[i].Replaced?
  }

  lemma PointedFrame(c: Cache, d: Cache)
    requires Pointed(c) && d.aliases == c.aliases
    requires forall id :: id in d.Table() ==> id in c.Table() && d.Table()[id].parsed == c.Table()[id].parsed
    ensures Pointed(d)
  {
    forall id | id in d.Table() ensures PointsHere(d, id) { assert PointsHere(c, id); }
  }

  lemma MissPointed(c: Cache, token: string, now: nat)
    requires Pointed(c)
    ensures Pointed(RecordMiss(c, token, now))
  {
    var d := RecordMiss(c, token, now);
    forall id | id in d.Table() ensures PointsHere(d, id) { assert PointsHere(c, id); }
  }

  /** Two findable modules with a common alias, or with the same debug-id, are one module. */
  lemma SharedAliasSameModule(x: Setting, u: string, v: string, t: string)
    requires Unambiguous.Unambiguous(x) && x.Find(u).Good? && x.Find(v).Good?
    requires t in x.Find(u).parsed.Id().Aliases() && t in x.Find(v).parsed.Id().Aliases()
    ensures x.Find(u) == x.Find(v)
  {
    assert x.Find(t) == x.Find(u) && x.Find(t) == x.Find(v);
  }

  /** A module about to be inserted is not resident under its own debug-id. */
  lemma InsertedIsAbsent(x: Setting, c: Cache, token: string)
    requires ProbeAgrees(x.world) && Unambiguous.Unambiguous(x)
    requires Consistent(c) && Sound(x, c) && Pointed(c) && !c.IsResident(token) && x.Find(token).Good?
    ensures x.Find(token).parsed.DebugIdStr() !in c.Table()
  {
    var m := x.Find(token).parsed;
    var id := m.DebugIdStr();
    if id in c.Table() {
      var held := c.Table()[id].parsed;
      assert ResidentOk(c, id) && ModuleSound(x, held) && PointsHere(c, id);
      var v :| LeadsTo(x, v, held.DebugIdStr()) && x.Find(v).parsed == held;
      AliasesCanonical(m.Id());
      AliasesCanonical(held.Id());
      SharedAliasSameModule(x, token, v, id);
      FoundUnderAlias(x, token);
      assert false;
    }
  }

  lemma StoredPointed(x: Setting, c: Cache, token: string, now: nat)
    requires Unambiguous.Unambiguous(x) && Consistent(c) && Sound(x, c) && Pointed(c) && x.Find(token).Good?
    ensures var m, origin := x.Find(token).parsed, x.Find(token).origin;
            Pointed(Store(Register(c, m, origin, now), m.DebugIdStr(), FreshResident(m, now)))
  {
    var m, origin := x.Find(token).parsed, x.Find(token).origin;
    var id := m.DebugIdStr();
    var d := Store(Register(c, m, origin, now), id, FreshResident(m, now));
    forall k | k in d.Table() ensures PointsHere(d, k) {
      if k != id {
        OthersKeepAliases(x, c, token, k);
        StoredOther(c, d, m, id, k);
      }
    }
  }

  lemma StoredOther(c: Cache, d: Cache, m: ParsedModule, id: string, k: string)
    requires k in c.Table() && k in d.Table() && d.Table()[k] == c.Table()[k]
    requires d.aliases == PointAliases(c.aliases, m.Id().Aliases(), id)
    requires forall t :: t in c.Table()[k].parsed.Id().Aliases() ==>
               t !in m.Id().Aliases() && t in c.aliases && c.aliases[t] == k
    ensures PointsHere(d, k)
  {
  }

  /** A resident module other than the one found shares no alias with it. */
  lemma OthersKeepAliases(x: Setting, c: Cache, token: string, k: string)
    requires Unambiguous.Unambiguous(x) && Consistent(c) && Sound(x, c) && Pointed(c) && x.Find(token).Good?
    requires k in c.Table() && k != x.Find(token).parsed.DebugIdStr()
    ensures forall t :: t in c.Table()[k].parsed.Id().Aliases() ==>
              t !in x.Find(token).parsed.Id().Aliases() && t in c.aliases && c.aliases[t] == k
  {
    var held := c.Table()[k].parsed;
    assert ResidentOk(c, k) && ModuleSound(x, held) && PointsHere(c, k);
    var v :| LeadsTo(x, v, held.DebugIdStr()) && x.Find(v).parsed == held;
    forall t | t in held.Id().Aliases() ensures t !in x.Find(token).parsed.Id().Aliases() {
      if t in x.Find(token).parsed.Id().Aliases() {
        SharedAliasSameModule(x, token, v, t);
        assert false;
      }
    }
  }

  lemma NoneReplacedSince(before: seq<Event<string>>, after: seq<Event<string>>)
    requires NoneReplaced(before) && OnlyEvictionsSince(before, after)
    ensures NoneReplaced(after)
  {
  }

  ghost predicate Orderly(c: Cache) {
    Pointed(c) && NoneReplaced(c.log)
  }

  lemma EvictedOrderly(c: Cache, d: Cache)
    requires Pointed(c) && OnlyEvicted(c, d)
    ensures Pointed(d)
  {
    PointedFrame(c, d);
  }

  lemma StoredOrderly(x: Setting, c: Cache, token: string, now: nat)
    requires ProbeAgrees(x.world) && Unambiguous.Unambiguous(x)
    requires Valid(c) && Sound(x, c) && Orderly(c) && !c.IsResident(token) && x.Find(token).Good?
    ensures var m, origin := x.Find(token).parsed, x.Find(token).origin;
            Orderly(Store(Register(c, m, origin, now), m.DebugIdStr(), FreshResident(m, now)))
  {
    InsertedIsAbsent(x, c, token);
    StoredPointed(x, c, token, now);
    NothingReplaced(Register(c, x.Find(token).parsed, x.Find(token).origin, now), x.Find(token).parsed.DebugIdStr(),
                    FreshResident(x.Find(token).parsed, now));
  }

  lemma NothingReplaced(c: Cache, id: string, r: Resident)
    requires NoneReplaced(c.log) && id !in c.Table()
    ensures NoneReplaced(Store(c, id, r).log)
  {
  }

  lemma BudgetOrderly(d: Cache)
    requires Valid(d) && Orderly(d)
    ensures Orderly(EvictToBudget(d))
  {
    EvictToBudgetFits(d);
    EvictToBudgetLog(d);
    NoneReplacedSince(d.log, EvictToBudget(d).log);
    EvictedOrderly(d, EvictToBudget(d));
  }

  lemma InsertOrderly(x: Setting, c: Cache, token: string, now: nat)
    requires ProbeAgrees(x.world) && Unambiguous.Unambiguous(x)
    requires Valid(c) && Sound(x, c) && Orderly(c) && !c.IsResident(token) && x.Find(token).Good?
    ensures Orderly(Insert(c, x.Find(token).parsed, x.Find(token).origin, now))
  {
    var m, origin := x.Find(token).parsed, x.Find(token).origin;
    RegisteredStored(c, m, origin, now);
    StoredOrderly(x, c, token, now);
    BudgetOrderly(Store(Register(c, m, origin, now), m.DebugIdStr(), FreshResident(m, now)));
  }

  // ---- over runs -----------------------------------------------------------------

  lemma AnsweredOrderly(c: Cache, token: string, now: nat)
    requires Orderly(c)
    ensures Orderly(Answered(c, token, now))
  {
    PointedFrame(c, Answered(c, token, now));
    if c.IsResident(token) { NoneReplacedMore(c.log, Hit(c.DebugIdOf(token).value)); }
  }

  lemma NoneReplacedMore(log: seq<Event<string>>, e: Event<string>)
    requires NoneReplaced(log) && !e.Replaced?
    ensures NoneReplaced(log + [e])
  {
  }

  lemma CalledOrderly(x: Setting, c: Cache, found: Lookedup, token: string, now: nat)
    requires ProbeAgrees(x.world) && Unambiguous.Unambiguous(x)
    requires Valid(c) && Sound(x, c) && Orderly(c) && found == x.Find(token)
    ensures Orderly(Called(c, found, token, now))
  {
    if c.IsResident(token) || c.IsKnownMiss(token) {
      AnsweredOrderly(c, token, now);
    } else if found.NoFile? {
      MissPointed(c, token, now);
    } else if found.Good? {
      InsertOrderly(x, c, token, now);
      AnsweredOrderly(Insert(c, found.parsed, found.origin, now), token, now);
    }
  }

  lemma CallOrderly(x: Setting, s: State, token: string, addr: U64, now: nat)
    requires ProbeAgrees(x.world) && Unambiguous.Unambiguous(x) && Settled(x, s) && Orderly(s.cache)
    ensures Orderly(States.Resolve(x.world, s, token, addr, now).0.cache)
    ensures States.FunctionName(x.world, s, token, addr, now).0 == States.Resolve(x.world, s, token, addr, now).0
  {
    CalledOrderly(x, s.cache, x.Find(token), token, now);
    ResolveCalls(s, x.Find(token), token, addr, now);
    NameCalls(s, x.Find(token), token, addr, now);
  }

  lemma StepOrderly(x: Setting, s: State, op: Op)
    requires ProbeAgrees(x.world) && Unambiguous.Unambiguous(x)
    requires Settled(x, s) && Orderly(s.cache) && Fixed(op)
    ensures Orderly(Step(x.world, s, op).0.cache)
  {
    match op {
      case ResolveOp(token, addr, now) => CallOrderly(x, s, token, addr, now);
      case NameOp(token, addr, now) => CallOrderly(x, s, token, addr, now);
      case EvictOp(token) => EvictTokenOrderly(s.cache, token);
      case EvictAllOp => EvictAllOrderly(s.cache);
      case ExportOp => SyncOrderly(s.cache);
      case RestartOp(maxBytes, maxModules) => RestartOrderly(s, maxBytes, maxModules);
    }
  }

  lemma EvictTokenOrderly(c: Cache, token: string)
    requires Valid(c) && Orderly(c)
    ensures Orderly(EvictToken(c, token).0)
  {
    EvictTokenKeeps(c, token);
    EvictedOrderly(c, EvictToken(c, token).0);
    EvictTokenLog(c, token);
  }

  lemma EvictTokenLog(c: Cache, token: string)
    requires NoneReplaced(c.log)
    ensures NoneReplaced(EvictToken(c, token).0.log)
  {
  }

  lemma EvictAllOrderly(c: Cache)
    requires Valid(c) && Orderly(c)
    ensures Orderly(EvictAll(c).0)
  {
    EvictAllKeeps(c);
    EvictedOrderly(c, EvictAll(c).0);
    DrainLog(c);
    NoneReplacedSince(c.log, Drain(c).log);
  }

  lemma SyncOrderly(c: Cache)
    requires Orderly(c)
    ensures Orderly(Sync(c))
  {
    PointedFrame(c, Sync(c));
  }

  lemma RestartOrderly(s: State, maxBytes: nat, maxModules: nat)
    requires s.Valid()
    ensures Orderly(Restart(s, maxBytes, maxModules).cache)
  {
    LoadUpToResident(New(maxBytes, maxModules), Export(s).1.entries, |Export(s).1.entries|);
  }

  lemma {:induction false} RunOrderly(x: Setting, s: State, ops: seq<Op>)
    requires ProbeAgrees(x.world) && Unambiguous.Unambiguous(x)
    requires Settled(x, s) && Orderly(s.cache) && AllFixed(ops)
    ensures Orderly(After(x.world, s, ops).cache)
  {
    if ops != [] {
      RunOrderly(x, s, ops[..|ops| - 1]);
      RunSettled(x, s, ops[..|ops| - 1]);
      StepOrderly(x, After(x.world, s, ops[..|ops| - 1]), ops[|ops| - 1]);
    }
  }

  /** Modules evicted, by force or to budget, or dropped at count capacity. */
  function EvictionCount<K>(log: seq<Event<K>>): nat {
    if log == [] then 0
    else EvictionCount(log[..|log| - 1]) + (if log[|log| - 1].Evicted? || log[|log| - 1].Dropped? then 1 else 0)
  }

  lemma {:induction false} OnlyEvictionsRemove(log: seq<Event<string>>)
    requires NoneReplaced(log)
    ensures RemovedCount(log) == EvictionCount(log)
  {
    if log != [] { OnlyEvictionsRemove(log[..|log| - 1]); }
  }

  /**
   Where files do not compete for tokens: after every run, every parse is a resident module or an
   eviction, and between two parses of one debug-id that module was evicted.
   */
  lemma ParsesAreResidentsPlusEvictions(x: Setting, catalog: Catalog, maxBytes: nat, maxModules: nat, ops: seq<Op>)
    requires NoCompetition(x) && catalog.sources == x.sources && AllFixed(ops)
    ensures Start(x, catalog, maxBytes, maxModules).Valid()
    ensures var c := After(x.world, Start(x, catalog, maxBytes, maxModules), ops).cache;
            && c.parseCount == |c.Order()| + EvictionCount(c.log)
            && EvictedBetweenParses(c.log)
  {
    var s := Start(x, catalog, maxBytes, maxModules);
    StartSettled(x, catalog, maxBytes, maxModules);
    NoCompetitionIsUnambiguous(x);
    RunOrderly(x, s, ops);
    var c := After(x.world, s, ops).cache;
    ParsesConserved(c);
    OnlyEvictionsRemove(c.log);
    forall i, j | 0 <= i < j < |c.log| && ParseOf(c.log, i).Some? && ParseOf(c.log, j) == ParseOf(c.log, i)
      ensures exists k :: i < k < j && EvictionOf(c.log, k) == ParseOf(c.log, i)
    {
      EvictedBetween(c.log, i, j);
    }
  }

  /** Between any two parses of one debug-id there is an eviction of it. */
  ghost predicate EvictedBetweenParses(log: seq<Event<string>>) {
    forall i, j :: 0 <= i < j < |log| && ParseOf(log, i).Some? && ParseOf(log, j) == ParseOf(log, i) ==>
      exists k :: i < k < j && EvictionOf(log, k) == ParseOf(log, i)
  }

  /** The debug-id event `i` records a parse of. */
  function ParseOf(log: seq<Event<string>>, i: nat): Option<string>
    requires i < |log|
  {
    if log[i].Inserted? then Some(log[i].id) else None
  }

  function EvictionOf(log: seq<Event<string>>, i: nat): Option<string>
    requires i < |log|
  {
    if log[i].Evicted? || log[i].Dropped? then Some(log[i].id) else None
  }

  lemma EvictedBetween(log: seq<Event<string>>, i: nat, j: nat)
    requires Honest(log) && NoneReplaced(log) && i < j < |log|
    requires ParseOf(log, i).Some? && ParseOf(log, i) == ParseOf(log, j)
    ensures exists k :: i < k < j && EvictionOf(log, k) == ParseOf(log, i)
  {
    RemovedBetweenInsertions(log, log[i].id, i, j);
    var k :| i < k < j && log[k].Removes() && log[k].id == log[i].id;
    assert EvictionOf(log, k) == ParseOf(log, i);
  }

  // ---- row counters -----------------------------------------------------------------

  /** The hits of a key since its latest insertion. */
  function HitsSince<K(==)>(log: seq<Event<K>>, id: K): nat {
    if log == [] then 0
    else
      var front, last := log[..|log| - 1], log[|log| - 1];
      if last.Inserted? && last.id == id then 0 else HitsSince(front, id) + (if last == Hit(id) then 1 else 0)
  }

  lemma {:induction false} LiveRowsAreHits<K(!new)>(log: seq<Event<K>>, id: K)
    requires Live(log, id).Some?
    ensures Live(log, id).value.rows == HitsSince(log, id)
  {
    var front, last := log[..|log| - 1], log[|log| - 1];
    if Live(front, id).Some? && !(last.Inserted? && last.id == id) { LiveRowsAreHits(front, id); }
  }

  /**
   A resident module's counter is its hits since its latest insertion, and an export or an
   eviction leaves exactly that number in its entry.
   */
  lemma RowsAreHits(c: Cache, d: Cache, id: string)
    requires Valid(c) && id in c.Table()
    ensures c.Table()[id].rows == HitsSince(c.log, id)
    ensures id in Sync(c).entries && Sync(c).entries[id].rowsResolved == HitsSince(c.log, id)
    ensures OnlyEvicted(c, d) && id !in d.Table() ==>
              id in d.entries && d.entries[id].rowsResolved == HitsSince(c.log, id)
  {
    assert Live(c.log, id) == InfoAt(c.Table(), id);
    LiveRowsAreHits(c.log, id);
    assert ResidentOk(c, id);
  }

  /**
   A module an insertion pushes out either was over the byte budget, and its entry has its exact
   counter, or was the oldest one at count capacity, and its entry is left as it was.
   */
  lemma PushedOutCounters(c: Cache, m: ParsedModule, origin: Origin, now: nat, id: string)
    requires Valid(c) && id in c.Table() && id != m.DebugIdStr()
    ensures var d := Insert(c, m, origin, now);
            && id in c.entries && id in d.entries
            && (id !in d.Table() ==>
                  if Drops(c.resident, m.DebugIdStr()) && id == c.resident.Oldest()
                  then d.entries[id] == c.entries[id]
                  else d.entries[id].rowsResolved == HitsSince(c.log, id))
  {
    var s := Store(Register(c, m, origin, now), m.DebugIdStr(), FreshResident(m, now));
    RegisteredStored(c, m, origin, now);
    EvictToBudgetFits(s);
    RowsAreHits(c, c, id);
    OthersStay(c, m, origin, now, id);
    OthersFoldBack(s, EvictToBudget(s), id);
  }

  lemma OthersStay(c: Cache, m: ParsedModule, origin: Origin, now: nat, id: string)
    requires Valid(c) && id in c.Table() && id != m.DebugIdStr()
    ensures var s := Store(Register(c, m, origin, now), m.DebugIdStr(), FreshResident(m, now));
            && id in c.entries && id in s.entries && s.entries[id] == c.entries[id]
            && if Drops(c.resident, m.DebugIdStr()) && id == c.resident.Oldest() then id !in s.Table()
               else id in s.Table() && s.Table()[id] == c.Table()[id]
  {
    assert ResidentOk(c, id);
  }

  lemma OthersFoldBack(s: Cache, d: Cache, id: string)
    requires OnlyEvicted(s, d) && id in s.entries
    ensures id in d.entries
    ensures id !in s.Table() ==> d.entries[id] == s.entries[id]
    ensures id in s.Table() && id !in d.Table() ==> d.entries[id].rowsResolved == s.Table()[id].rows
  {
  }

  // ---- bytes ------------------------------------------------------------------------

  /** The byte counter is never below what is subtracted from it, and exact iff no dropped bytes linger. */
  lemma BytesAccounted(c: Cache, id: string)
    requires Valid(c) && id in c.Table()
    ensures c.residentBytes >= c.Table()[id].bytes
    ensures SaturatingSub(c.residentBytes, c.Table()[id].bytes) + c.Table()[id].bytes == c.residentBytes
    ensures c.residentBytes == c.TrueBytes() <==> DroppedBytes(c.log) == 0
  {
    TotalPop(c.resident, id, BytesOf);
  }

  /** An insertion makes the byte counter drift by exactly the bytes of the module it drops at count capacity. */
  lemma InsertDrift(c: Cache, m: ParsedModule, origin: Origin, now: nat)
    requires Valid(c)
    ensures var d := Insert(c, m, origin, now);
            d.residentBytes - d.TrueBytes() == c.residentBytes - c.TrueBytes()
              + (if Drops(c.resident, m.DebugIdStr()) then Weight(c.Table(), BytesOf, c.resident.Oldest()) else 0)
  {
    InsertDropped(c, m, origin, now);
  }
}
