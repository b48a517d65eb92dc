/**
 Counted rows over whole runs: every call answered from a module is counted by exactly one module,
 once, and nothing else is counted.
 */
module Counters {

  import opened Wrappers
  import opened Manifest
  import opened Modules
  import opened Lru
  import opened Log
  import opened Caches
  import opened CacheFacts
  import opened States
  import opened Reference
  import opened Transparency

  function HitCount<K>(log: seq<Event<K>>): nat {
    if log == [] then 0 else HitCount(log[..|log| - 1]) + (if log[|log| - 1].Hit? then 1 else 0)
  }

  lemma HitSnoc<K>(log: seq<Event<K>>, e: Event<K>)
    ensures HitCount(log + [e]) == HitCount(log) + (if e.Hit? then 1 else 0)
  {
    assert (log + [e])[..|log|] == log;
  }

  lemma StoreHits(c: Cache, id: string, r: Resident)
    ensures HitCount(Store(c, id, r).log) == HitCount(c.log)
  {
    var out := PushedOut(c.resident, id);
    if out == [] {
      assert c.log + out == c.log;
    } else {
      assert c.log + out == c.log + [out[0]];
      HitSnoc(c.log, out[0]);
    }
    HitSnoc(c.log + out, Inserted(id, r.bytes));
  }

  lemma {:induction false} BudgetHits(c: Cache)
    requires c.resident.Ok()
    ensures HitCount(EvictToBudget(c).log) == HitCount(c.log)
    decreases |c.Order()|
  {
    if OverBudget(c) {
      PopOldestIsPop(c.resident);
      HitSnoc(c.log, Evicted(c.resident.Oldest(), c.Table()[c.resident.Oldest()].bytes));
      BudgetHits(EvictOldest(c));
    }
  }

  lemma {:induction false} DrainHits(c: Cache)
    requires c.resident.Ok()
    ensures HitCount(Drain(c).log) == HitCount(c.log)
    decreases |c.Order()|
  {
    if c.Order() != [] {
      PopOldestIsPop(c.resident);
      HitSnoc(c.log, Evicted(c.resident.Oldest(), c.Table()[c.resident.Oldest()].bytes));
      DrainHits(TakeOut(c, c.resident.Oldest()));
    }
  }

  lemma InsertHits(c: Cache, m: ParsedModule, origin: Origin, now: nat)
    requires c.resident.Ok()
    ensures HitCount(Insert(c, m, origin, now).log) == HitCount(c.log)
  {
    var r := FreshResident(m, now);
    PutOk(c.resident, m.DebugIdStr(), r);
    StoreHits(Register(c, m, origin, now), m.DebugIdStr(), r);
    BudgetHits(Store(Register(c, m, origin, now), m.DebugIdStr(), r));
  }

  /** A call whose token leads to a module: a matter of the files alone. */
  predicate AsksModule(x: Setting, op: Op) {
    (op.ResolveOp? || op.NameOp?) && x.Find(op.token).Good?
  }

  lemma AnsweredHits(c: Cache, token: string, now: nat)
    ensures HitCount(Answered(c, token, now).log) == HitCount(c.log) + (if c.IsResident(token) then 1 else 0)
  {
    if c.IsResident(token) { HitSnoc(c.log, Hit(c.DebugIdOf(token).value)); }
  }

  lemma CalledHits(x: Setting, c: Cache, found: Lookedup, token: string, now: nat)
    requires ProbeAgrees(x.world) && Coherent(x) && Valid(c) && Sound(x, c) && found == x.Find(token)
    ensures HitCount(Called(c, found, token, now).log) == HitCount(c.log) + (if found.Good? then 1 else 0)
  {
    if c.IsResident(token) {
      ResidentIsGood(x, c, token);
      AnsweredHits(c, token, now);
    } else if c.IsKnownMiss(token) {
      FindCanonical(x, token);
    } else if found.Good? {
      InsertedIsResident(x, c, token, now);
      InsertHits(c, found.parsed, found.origin, now);
      AnsweredHits(Insert(c, found.parsed, found.origin, now), token, now);
    }
  }

  lemma CallHits(x: Setting, s: State, token: string, addr: U64, now: nat)
    requires ProbeAgrees(x.world) && Coherent(x) && Settled(x, s)
    ensures HitCount(States.Resolve(x.world, s, token, addr, now).0.cache.log)
         == HitCount(s.cache.log) + (if x.Find(token).Good? then 1 else 0)
    ensures States.FunctionName(x.world, s, token, addr, now).0 == States.Resolve(x.world, s, token, addr, now).0
  {
    CalledHits(x, s.cache, x.Find(token), token, now);
    ResolveCalls(s, x.Find(token), token, addr, now);
    NameCalls(s, x.Find(token), token, addr, now);
  }

  lemma EvictHits(c: Cache, token: string)
    ensures HitCount(EvictToken(c, token).0.log) == HitCount(c.log)
  {
    if c.IsResident(token) {
      var id := c.DebugIdOf(token).value;
      HitSnoc(c.log, Evicted(id, c.Table()[id].bytes));
    }
  }

  lemma EvictAllHits(c: Cache)
    requires c.resident.Ok()
    ensures HitCount(EvictAll(c).0.log) == HitCount(c.log)
  {
    DrainHits(c);
    HitSnoc(Drain(c).log, Cleared);
  }

  lemma RestartHits(s: State, maxBytes: nat, maxModules: nat)
    requires s.Valid()
    ensures HitCount(Restart(s, maxBytes, maxModules).cache.log) == 0
  {
    LoadUpToResident(New(maxBytes, maxModules), Export(s).1.entries, |Export(s).1.entries|);
  }

  /** A call is counted once if its token leads to a module; nothing else is counted; a restart counts anew. */
  lemma StepHits(x: Setting, s: State, op: Op)
    requires ProbeAgrees(x.world) && Coherent(x) && Settled(x, s) && Fixed(op)
    ensures HitCount(Step(x.world, s, op).0.cache.log) ==
            if op.RestartOp? then 0 else HitCount(s.cache.log) + (if AsksModule(x, op) then 1 else 0)
  {
    match op {
      case ResolveOp(token, addr, now) => CallHits(x, s, token, addr, now);
      case NameOp(token, addr, now) => CallHits(x, s, token, addr, now);
      case EvictOp(token) => EvictHits(s.cache, token);
      case EvictAllOp => EvictAllHits(s.cache);
      case ExportOp =>
      case RestartOp(maxBytes, maxModules) => RestartHits(s, maxBytes, maxModules);
    }
  }

  /** How many calls asked for a module since the run's last restart, counting on from `before`. */
  function AskedSince(x: Setting, before: nat, ops: seq<Op>): nat {
    if ops == [] then before
    else
      var last := ops[|ops| - 1];
      if last.RestartOp? then 0
      else AskedSince(x, before, ops[..|ops| - 1]) + (if AsksModule(x, last) then 1 else 0)
  }

  /**
   Where files are coherent, the rows a worker has counted over any run are the calls whose tokens
   lead to a module: a number the files and the calls determine, whatever the budgets.
   */
  lemma {:induction false} HitsAreAnswers(x: Setting, s: State, ops: seq<Op>)
    requires ProbeAgrees(x.world) && Coherent(x) && Settled(x, s) && AllFixed(ops)
    ensures HitCount(After(x.world, s, ops).cache.log) == AskedSince(x, HitCount(s.cache.log), ops)
  {
    if ops != [] {
      HitsAreAnswers(x, s, ops[..|ops| - 1]);
      RunSettled(x, s, ops[..|ops| - 1]);
      StepHits(x, After(x.world, s, ops[..|ops| - 1]), ops[|ops| - 1]);
    }
  }

  /** `ensure_resident` succeeds exactly for the tokens that lead to a module. */
  lemma ReadyIsGood(x: Setting, s: State, token: string, now: nat)
    requires ProbeAgrees(x.world) && Coherent(x) && Settled(x, s)
    ensures EnsureResident(x.world, s, token, now).1.Ready? <==> x.Find(token).Good?
  {
    if s.cache.IsResident(token) {
      ResidentIsGood(x, s.cache, token);
    } else if s.cache.IsKnownMiss(token) {
      FindCanonical(x, token);
    }
  }
}
