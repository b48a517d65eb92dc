/**
 What every operation of the cache keeps, and what insertion and eviction achieve.
 */
module CacheFacts {

  import opened Wrappers
  import opened Ids
  import opened Manifest
  import opened Modules
  import opened Lru
  import opened Log
  import opened Caches

  lemma NewValid(maxBytes: nat, maxModules: nat)
    ensures Valid(New(maxBytes, maxModules))
  {
  }

  /** The history stays honest and complete when one possible event and the table move together. */
  lemma RecordedStep(c: Cache, c': Cache, e: Event<string>)
    requires Recorded(c) && !e.Inserted? && c'.parseCount == c.parseCount
    requires c'.log == c.log + [e] && Possible(c.log, e)
    requires forall id: string :: InfoAt(c'.Table(), id) == LiveAfter(InfoAt(c.Table(), id), e, id)
    ensures Recorded(c')
    ensures DroppedBytes(c'.log) == if e.Cleared? then 0 else DroppedBytes(c.log) + (if e.Dropped? then e.bytes else 0)
  {
    LiveSnoc(c.log, e);
    CountSnoc(c.log, e);
  }

  /** Consistency only looks at the maps and at which modules are resident. */
  lemma ConsistentFrame(c: Cache, d: Cache)
    requires Consistent(c)
    requires d.aliases == c.aliases && d.entries.Keys == c.entries.Keys
    requires forall id :: id in c.entries ==> SameButCounters(d.entries[id], c.entries[id])
    requires forall id :: id in d.Table() ==>
               && id in c.Table() && d.Table()[id].parsed == c.Table()[id].parsed
               && d.Table()[id].bytes == c.Table()[id].bytes
    ensures Consistent(d)
  {
    forall id | id in d.entries ensures EntryOk(d, id) { assert EntryOk(c, id); }
    forall id | id in d.Table() ensures ResidentOk(d, id) { assert ResidentOk(c, id); }
  }

  predicate SameButCounters(a: ManifestEntry, b: ManifestEntry) {
    a == b.(rowsResolved := a.rowsResolved, lastUsed := a.lastUsed)
  }

  // ---- hits ----------------------------------------------------------------

  lemma UseKeeps(c: Cache, id: string, now: nat)
    requires Valid(c) && id in c.Table()
    ensures Valid(Use(c, id, now))
  {
    UseRecorded(c, id, now);
    UseAccounted(c, id, now);
    UseConsistent(c, id, now);
  }

  lemma UseConsistent(c: Cache, id: string, now: nat)
    requires Consistent(c) && id in c.Table()
    ensures Consistent(Use(c, id, now))
  {
    ConsistentFrame(c, Use(c, id, now));
  }

  lemma UseRecorded(c: Cache, id: string, now: nat)
    requires Recorded(c) && id in c.Table()
    ensures Recorded(Use(c, id, now)) && DroppedBytes(Use(c, id, now).log) == DroppedBytes(c.log)
  {
    assert Live(c.log, id) == InfoAt(c.Table(), id);
    RecordedStep(c, Use(c, id, now), Hit(id));
  }

  lemma UseAccounted(c: Cache, id: string, now: nat)
    requires c.resident.Ok() && id in c.Table()
    ensures Use(c, id, now).resident.Ok() && Use(c, id, now).TrueBytes() == c.TrueBytes()
  {
    var r' := c.Table()[id].(rows := c.Table()[id].rows + 1, lastUsed := now);
    TouchOk(c.resident, id, r');
    TotalTouch(c.resident, id, r', BytesOf);
  }

  // ---- misses --------------------------------------------------------------

  lemma RecordMissKeeps(c: Cache, token: string, now: nat)
    requires Valid(c)
    ensures Valid(RecordMiss(c, token, now))
  {
    var c' := RecordMiss(c, token, now);
    forall id | id in c'.entries ensures EntryOk(c', id) {
      if id in c.entries { assert EntryOk(c, id); }
    }
    forall id | id in c'.Table() ensures ResidentOk(c', id) {
      assert ResidentOk(c, id);
    }
  }

  // ---- storing -------------------------------------------------------------

  lemma RegisterKeeps(c: Cache, m: ParsedModule, origin: Origin, now: nat)
    requires Valid(c)
    ensures Accounted(Register(c, m, origin, now)) && Consistent(Register(c, m, origin, now))
    ensures m.DebugIdStr() in Register(c, m, origin, now).entries
  {
    var id, c' := m.DebugIdStr(), Register(c, m, origin, now);
    forall k | k in c'.entries ensures EntryOk(c', k) {
      if k != id { assert EntryOk(c, k); }
    }
    forall k | k in c'.Table() ensures ResidentOk(c', k) {
      assert ResidentOk(c, k);
    }
  }

  lemma PutRecorded<K(!new)>(l: Lru<K, Resident>, log: seq<Event<K>>, id: K, r: Resident)
    requires l.Ok() && Honest(log) && r.rows == 0
    requires forall k :: Live(log, k) == InfoAt(l.table, k)
    ensures var after := log + PushedOut(l, id) + [Inserted(id, r.bytes)];
            && Honest(after)
            && (forall k :: Live(after, k) == InfoAt(Put(l, id, r).table, k))
            && InsertedCount(after) == InsertedCount(log) + 1
            && DroppedBytes(after) == DroppedBytes(log) + (if Drops(l, id) then l.table[l.Oldest()].bytes else 0)
  {
    PutPossible(l, log, id);
    PushThenInsert(log, PushedOut(l, id), Inserted(id, r.bytes));
    forall k ensures Live(log + PushedOut(l, id) + [Inserted(id, r.bytes)], k) == InfoAt(Put(l, id, r).table, k) {
      PutInfo(l, id, r, k);
    }
  }

  lemma PutPossible<K(!new)>(l: Lru<K, Resident>, log: seq<Event<K>>, id: K)
    requires l.Ok() && forall k :: Live(log, k) == InfoAt(l.table, k)
    ensures var out := PushedOut(l, id);
            && (out != [] ==> out[0].Removes() && Possible(log, out[0]))
            && (Live(log, id).None? || (out != [] && out[0].id == id))
            && (Drops(l, id) ==> out != [] && out[0] == Dropped(l.Oldest(), l.table[l.Oldest()].bytes))
            && (out != [] && out[0].Dropped? ==> Drops(l, id))
  {
    var out := PushedOut(l, id);
    assert Live(log, id) == InfoAt(l.table, id);
    if out != [] { assert Live(log, out[0].id) == InfoAt(l.table, out[0].id); }
  }

  lemma PutInfo<K(!new)>(l: Lru<K, Resident>, id: K, r: Resident, k: K)
    ensures InfoAt(Put(l, id, r).table, k) ==
            if k == id then Some(Info(r.rows, r.bytes))
            else if PushedOut(l, id) != [] && k == PushedOut(l, id)[0].id then None else InfoAt(l.table, k)
  {
  }

  /** The history of a `put`: what it pushes out, then the insertion. */
  lemma StoreRecorded(c: Cache, id: string, r: Resident)
    requires c.resident.Ok() && Honest(c.log) && r.rows == 0
    requires forall k: string :: Live(c.log, k) == InfoAt(c.Table(), k)
    ensures Honest(Store(c, id, r).log)
    ensures forall k: string :: Live(Store(c, id, r).log, k) == InfoAt(Store(c, id, r).Table(), k)
    ensures InsertedCount(Store(c, id, r).log) == InsertedCount(c.log) + 1
    ensures DroppedBytes(Store(c, id, r).log)
         == DroppedBytes(c.log) + (if Drops(c.resident, id) then c.Table()[c.resident.Oldest()].bytes else 0)
  {
    PutRecorded(c.resident, c.log, id, r);
  }

  lemma StoreKeeps(c: Cache, id: string, r: Resident)
    requires Accounted(c) && Consistent(c) && id in c.entries
    requires r.parsed.DebugIdStr() == id && r.bytes == r.parsed.ResidentBytes() && r.rows == 0
    requires Honest(c.log) && c.parseCount == InsertedCount(c.log) + 1
    requires forall k: string :: Live(c.log, k) == InfoAt(c.Table(), k)
    ensures Valid(Store(c, id, r))
  {
    var c' := Store(c, id, r);
    StoreRecorded(c, id, r);
    PutOk(c.resident, id, r);
    TotalPut(c.resident, id, r, BytesOf);
    if id in c.Table() { TotalPop(c.resident, id, BytesOf); }
    forall k | k in c'.entries ensures EntryOk(c', k) { assert EntryOk(c, k); }
    forall k | k in c'.Table() ensures ResidentOk(c', k) {
      if k != id { assert ResidentOk(c, k); }
    }
  }

  // ---- taking out ------------------------------------------------------------

  lemma FoldBackKeeps(c: Cache, id: string)
    requires Consistent(c) && id in c.Table()
    ensures Consistent(TakeOut(c, id))
  {
    assert ResidentOk(c, id);
    ConsistentFrame(c, TakeOut(c, id));
  }

  lemma TakeOutRecorded(c: Cache, id: string)
    requires c.resident.Ok() && Recorded(c) && id in c.Table()
    ensures Recorded(TakeOut(c, id)) && TakeOut(c, id).resident.Ok()
    ensures DroppedBytes(TakeOut(c, id).log) == DroppedBytes(c.log)
  {
    PopOk(c.resident, id);
    var e := Evicted(id, c.Table()[id].bytes);
    assert Live(c.log, id) == InfoAt(c.Table(), id);
    RecordedStep(c, TakeOut(c, id), e);
  }

  /** Taking a module out: the invariant holds again once its bytes leave the counter. */
  lemma TakeOutKeeps(c: Cache, id: string)
    requires Valid(c) && id in c.Table()
    ensures c.residentBytes >= c.Table()[id].bytes
    ensures Valid(TakeOut(c, id).(residentBytes := SaturatingSub(c.residentBytes, c.Table()[id].bytes)))
  {
    var out := TakeOut(c, id);
    FoldBackKeeps(c, id);
    TakeOutRecorded(c, id);
    TotalPop(c.resident, id, BytesOf);
    ConsistentFrame(out, out.(residentBytes := SaturatingSub(c.residentBytes, c.Table()[id].bytes)));
  }

  lemma EvictOldestKeeps(c: Cache)
    requires Valid(c) && c.Order() != []
    ensures Valid(EvictOldest(c))
    ensures EvictOldest(c).Order() == c.Order()[..|c.Order()| - 1]
    ensures c.residentBytes == EvictOldest(c).residentBytes + c.Table()[c.resident.Oldest()].bytes
  {
    TakeOutKeeps(c, c.resident.Oldest());
    PopOldestIsPop(c.resident);
  }

  // ---- eviction to budget ----------------------------------------------------

  /** Exactly the entries of the modules taken out change, and they hold those modules' live counters. */
  ghost predicate FoldedBack(before: Cache, after: Cache) {
    && after.entries.Keys == before.entries.Keys
    && forall id :: id in before.entries ==>
         if id in before.Table() && id !in after.Table()
         then && after.entries[id].rowsResolved == before.Table()[id].rows
              && after.entries[id].lastUsed == before.Table()[id].lastUsed
              && SameButCounters(after.entries[id], before.entries[id])
         else after.entries[id] == before.entries[id]
  }

  /** `after` keeps some of the resident modules of `before`, unchanged, and all of the rest. */
  ghost predicate OnlyEvicted(before: Cache, after: Cache) {
    && after.aliases == before.aliases && after.negative == before.negative
    && after.maxBytes == before.maxBytes && after.parseCount == before.parseCount
    && after.resident.cap == before.resident.cap
    && FoldedBack(before, after)
    && (forall id :: id in after.Table() ==> id in before.Table() && after.Table()[id] == before.Table()[id])
  }

  lemma OnlyEvictedStep(a: Cache, b: Cache, d: Cache)
    requires OnlyEvicted(a, b) && OnlyEvicted(b, d)
    ensures OnlyEvicted(a, d)
  {
  }

  lemma TakeOutOnlyEvicts(c: Cache, id: string)
    requires Consistent(c) && id in c.Table()
    ensures OnlyEvicted(c, TakeOut(c, id))
  {
    assert ResidentOk(c, id);
  }

  /** What eviction to budget achieves from `c`. */
  ghost predicate Fits(c: Cache, c': Cache) {
    && c'.Order() <= c.Order()
    && (c'.residentBytes <= c.maxBytes || |c'.Order()| <= 1)
    && (c.Order() != [] ==> c'.Order() != [])
    && DroppedBytes(c'.log) == DroppedBytes(c.log)
    && forall n :: |c'.Order()| < n <= |c.Order()| ==>
         TotalUpTo(c.Order(), c.Table(), BytesOf, n) + DroppedBytes(c.log) > c.maxBytes
  }

  /**
   Eviction to budget keeps a most-recently-used prefix: the longest one that fits the budget
   together with the dropped bytes still counted, but never fewer than one module. Every evicted
   module's counters are folded into its entry.
   */
  lemma {:induction false} EvictToBudgetFits(c: Cache)
    requires Valid(c)
    ensures Valid(EvictToBudget(c)) && OnlyEvicted(c, EvictToBudget(c)) && Fits(c, EvictToBudget(c))
    decreases |c.Order()|
  {
    if OverBudget(c) {
      var next := EvictOldest(c);
      EvictOldestKeeps(c);
      TakeOutOnlyEvicts(c, c.resident.Oldest());
      EvictToBudgetFits(next);
      OnlyEvictedStep(c, next, EvictToBudget(next));
      TakeOutRecorded(c, c.resident.Oldest());
      forall n | 0 <= n < |c.Order()|
        ensures TotalUpTo(c.Order(), c.Table(), BytesOf, n) == TotalUpTo(next.Order(), next.Table(), BytesOf, n)
      {
        KeptWeights(c, next, n);
      }
      FitsStep(c, next, EvictToBudget(next));
    }
  }

  lemma FitsStep(c: Cache, next: Cache, c': Cache)
    requires Fits(next, c') && c.Order() != [] && next.Order() == c.Order()[..|c.Order()| - 1] && next.Order() != []
    requires next.maxBytes == c.maxBytes && DroppedBytes(next.log) == DroppedBytes(c.log)
    requires c.TrueBytes() + DroppedBytes(c.log) > c.maxBytes
    requires forall n :: 0 <= n < |c.Order()| ==>
               TotalUpTo(c.Order(), c.Table(), BytesOf, n) == TotalUpTo(next.Order(), next.Table(), BytesOf, n)
    ensures Fits(c, c')
  {
  }

  lemma KeptWeights(c: Cache, next: Cache, n: nat)
    requires Valid(c) && n < |c.Order()| && next == EvictOldest(c) && next.Order() == c.Order()[..|c.Order()| - 1]
    ensures TotalUpTo(c.Order(), c.Table(), BytesOf, n) == TotalUpTo(next.Order(), next.Table(), BytesOf, n)
  {
    forall i | 0 <= i < n
      ensures Weight(c.Table(), BytesOf, c.Order()[i]) == Weight(next.Table(), BytesOf, next.Order()[i])
    {
      assert c.Order()[i] != c.resident.Oldest();
    }
    TotalAgrees(c.Order(), c.Table(), next.Order(), next.Table(), BytesOf, n);
  }

  /** The history has grown by evictions only. */
  ghost predicate OnlyEvictionsSince(before: seq<Event<string>>, after: seq<Event<string>>) {
    before <= after && forall i :: |before| <= i < |after| ==> after[i].Evicted?
  }

  lemma {:induction false} EvictToBudgetLog(c: Cache)
    requires c.resident.Ok()
    ensures OnlyEvictionsSince(c.log, EvictToBudget(c).log)
    decreases |c.Order()|
  {
    if OverBudget(c) {
      PopOldestIsPop(c.resident);
      EvictToBudgetLog(EvictOldest(c));
    }
  }

  lemma {:induction false} DrainLog(c: Cache)
    requires c.resident.Ok()
    ensures OnlyEvictionsSince(c.log, Drain(c).log)
    decreases |c.Order()|
  {
    if c.Order() != [] {
      PopOldestIsPop(c.resident);
      DrainLog(TakeOut(c, c.resident.Oldest()));
    }
  }

  // ---- insertion ---------------------------------------------------------------

  /** The recency order right after `put`, before eviction to budget. */
  function StoredOrder(c: Cache, id: string): seq<string> {
    [id] + Remove(if Drops(c.resident, id) then c.Order()[..|c.Order()| - 1] else c.Order(), id)
  }

  lemma RegisteredStored(c: Cache, m: ParsedModule, origin: Origin, now: nat)
    requires Valid(c)
    ensures var s := Store(Register(c, m, origin, now), m.DebugIdStr(), FreshResident(m, now));
            && Valid(s) && s.Order() == StoredOrder(c, m.DebugIdStr())
            && s.Table()[m.DebugIdStr()] == FreshResident(m, now)
            && DroppedBytes(s.log) == DroppedBytes(c.log)
                 + (if Drops(c.resident, m.DebugIdStr()) then c.Table()[c.resident.Oldest()].bytes else 0)
  {
    RegisterKeeps(c, m, origin, now);
    StoreRecorded(Register(c, m, origin, now), m.DebugIdStr(), FreshResident(m, now));
    StoreKeeps(Register(c, m, origin, now), m.DebugIdStr(), FreshResident(m, now));
    StoredFirst(c.resident, m.DebugIdStr(), FreshResident(m, now));
  }

  lemma StoredFirst<K(!new)>(l: Lru<K, Resident>, id: K, r: Resident)
    ensures Put(l, id, r).order == [id] + Remove(if Drops(l, id) then l.order[..|l.order| - 1] else l.order, id)
    ensures id in Put(l, id, r).table && Put(l, id, r).table[id] == r
  {
  }

  /**
   Insertion under every pair of budgets: the new module is resident and most recent; the
   survivors are a prefix of the recency order; at most `max(1, max_modules)` remain; and the true
   byte total fits the budget or only the new module remains.
   */
  lemma InsertIsLru(c: Cache, m: ParsedModule, origin: Origin, now: nat)
    requires Valid(c)
    ensures var c', id := Insert(c, m, origin, now), m.DebugIdStr();
            && Valid(c')
            && c'.Order() != [] && c'.Order()[0] == id && c'.Order() <= StoredOrder(c, id)
            && id in c'.Table() && c'.Table()[id] == FreshResident(m, now)
            && |c'.Order()| <= c.resident.cap
            && (c'.TrueBytes() <= c.maxBytes || c'.Order() == [id])
  {
    RegisteredStored(c, m, origin, now);
    EvictToBudgetFits(Store(Register(c, m, origin, now), m.DebugIdStr(), FreshResident(m, now)));
    var c' := Insert(c, m, origin, now);
    assert c'.Order()[0] in c'.Table();
    assert |c'.Order()| == 1 ==> c'.Order() == [c'.Order()[0]];
  }

  lemma InsertKeeps(c: Cache, m: ParsedModule, origin: Origin, now: nat)
    requires Valid(c)
    ensures Valid(Insert(c, m, origin, now))
  {
    InsertIsLru(c, m, origin, now);
  }

  /** The entry an insertion leaves for its module: a fresh one, even where the module was known before. */
  lemma InsertedEntry(c: Cache, m: ParsedModule, origin: Origin, now: nat)
    requires Valid(c)
    ensures var d, id := Insert(c, m, origin, now), m.DebugIdStr();
            && id in d.entries
            && d.entries[id] == ManifestEntry(id, Some(origin), Some(m.Id().format.AsStr()), Some(m.Id().arch),
                                                              Some(m.DisplayName()), m.ResidentBytes(), 0, now, false)
  {
    var s := Store(Register(c, m, origin, now), m.DebugIdStr(), FreshResident(m, now));
    RegisteredStored(c, m, origin, now);
    InsertIsLru(c, m, origin, now);
    EvictToBudgetFits(s);
    assert FoldedBack(s, EvictToBudget(s));
  }

  /** The dropped bytes an insertion leaves on the books. */
  lemma InsertDropped(c: Cache, m: ParsedModule, origin: Origin, now: nat)
    requires Valid(c)
    ensures var d := Insert(c, m, origin, now);
            && Valid(d)
            && DroppedBytes(d.log) == DroppedBytes(c.log)
                 + (if Drops(c.resident, m.DebugIdStr()) then c.Table()[c.resident.Oldest()].bytes else 0)
  {
    RegisteredStored(c, m, origin, now);
    EvictToBudgetFits(Store(Register(c, m, origin, now), m.DebugIdStr(), FreshResident(m, now)));
  }

  /** What an insertion does to the durable maps, whatever it evicts. */
  lemma InsertMaps(c: Cache, m: ParsedModule, origin: Origin, now: nat)
    requires c.resident.Ok()
    ensures var d, id := Insert(c, m, origin, now), m.DebugIdStr();
            && d.aliases == PointAliases(c.aliases, m.Id().Aliases(), id)
            && d.negative == c.negative - {CanonicalToken(id)}
            && d.entries.Keys == c.entries.Keys + {id}
            && d.parseCount == c.parseCount + 1 && d.maxBytes == c.maxBytes && d.resident.cap == c.resident.cap
  {
    PutOk(c.resident, m.DebugIdStr(), FreshResident(m, now));
    EvictToBudgetMaps(Store(Register(c, m, origin, now), m.DebugIdStr(), FreshResident(m, now)));
  }

  lemma {:induction false} EvictToBudgetMaps(c: Cache)
    requires c.resident.Ok()
    ensures var d := EvictToBudget(c);
            && d.aliases == c.aliases && d.negative == c.negative && d.entries.Keys == c.entries.Keys
            && d.parseCount == c.parseCount && d.maxBytes == c.maxBytes && d.resident.cap == c.resident.cap
    decreases |c.Order()|
  {
    if OverBudget(c) {
      PopOldestIsPop(c.resident);
      EvictToBudgetMaps(EvictOldest(c));
    }
  }

  /** Insertion never evicts more than it must: one survivor more would exceed the budget, counting dropped bytes. */
  lemma InsertKeepsAllThatFits(c: Cache, m: ParsedModule, origin: Origin, now: nat)
    requires Valid(c)
    ensures var c', id := Insert(c, m, origin, now), m.DebugIdStr();
            c'.Order() < StoredOrder(c, id) ==>
              TotalUpTo(StoredOrder(c, id), Put(c.resident, id, FreshResident(m, now)).table, BytesOf, |c'.Order()| + 1)
              + DroppedBytes(c'.log) > c.maxBytes
  {
    var s := Store(Register(c, m, origin, now), m.DebugIdStr(), FreshResident(m, now));
    RegisteredStored(c, m, origin, now);
    EvictToBudgetFits(s);
    assert Fits(s, EvictToBudget(s));
  }

  // ---- forced eviction -----------------------------------------------------------

  lemma EvictTokenKeeps(c: Cache, token: string)
    requires Valid(c)
    ensures var (c', freed) := EvictToken(c, token);
            && Valid(c') && OnlyEvicted(c, c') && !c'.IsResident(token)
            && c.TrueBytes() == c'.TrueBytes() + freed
            && c.residentBytes == c'.residentBytes + freed
  {
    if c.IsResident(token) {
      var id := c.DebugIdOf(token).value;
      TakeOutKeeps(c, id);
      TakeOutOnlyEvicts(c, id);
      TotalPop(c.resident, id, BytesOf);
    }
  }

  lemma {:induction false} DrainEmpties(c: Cache)
    requires c.resident.Ok() && Recorded(c) && Consistent(c)
    ensures Drain(c).Order() == [] && Drain(c).resident.Ok() && Recorded(Drain(c)) && Consistent(Drain(c))
    ensures OnlyEvicted(c, Drain(c))
    decreases |c.Order()|
  {
    if c.Order() != [] {
      var id := c.resident.Oldest();
      FoldBackKeeps(c, id);
      TakeOutRecorded(c, id);
      TakeOutOnlyEvicts(c, id);
      PopOldestIsPop(c.resident);
      DrainEmpties(TakeOut(c, id));
      OnlyEvictedStep(c, TakeOut(c, id), Drain(TakeOut(c, id)));
    }
  }

  lemma ResetCounterKeeps(d: Cache)
    requires d.resident.Ok() && Recorded(d) && Consistent(d) && d.Order() == []
    ensures Valid(ResetCounter(d)) && ResetCounter(d).Table() == map[] && DroppedBytes(ResetCounter(d).log) == 0
  {
    RecordedStep(d, ResetCounter(d), Cleared);
    ConsistentFrame(d, ResetCounter(d));
    forall id ensures id !in d.Table() {
      assert id !in d.Order();
    }
    assert d.Table() == map[];
  }

  /** Evicting everything frees the true total, folds every counter back and restarts the byte counter. */
  lemma EvictAllKeeps(c: Cache)
    requires Valid(c)
    ensures var (c', freed) := EvictAll(c);
            && Valid(c') && OnlyEvicted(c, c') && c'.Order() == [] && c'.Table() == map[]
            && freed == c.TrueBytes() && c'.residentBytes == 0 && DroppedBytes(c'.log) == 0
  {
    DrainEmpties(c);
    ResetCounterKeeps(Drain(c));
  }

  // ---- the manifest ----------------------------------------------------------------

  /** Export stores every resident module's exact counters and nothing else changes. */
  lemma SyncKeeps(c: Cache)
    requires Valid(c)
    ensures Valid(Sync(c)) && Sync(c).entries.Keys == c.entries.Keys
    ensures forall id :: id in c.Table() ==>
              && Sync(c).entries[id].rowsResolved == c.Table()[id].rows
              && Sync(c).entries[id].lastUsed == c.Table()[id].lastUsed
    ensures forall id :: id in c.entries ==> SameButCounters(Sync(c).entries[id], c.entries[id])
  {
    var c' := Sync(c);
    forall id | id in c'.entries ensures EntryOk(c', id) { assert EntryOk(c, id); }
    forall id | id in c'.Table() ensures ResidentOk(c', id) { assert ResidentOk(c, id); }
  }

  lemma LoadKeeps(c: Cache, e: ManifestEntry)
    requires Valid(c)
    ensures Valid(Load(c, e))
  {
    var c' := Load(c, e);
    forall id | id in c'.entries ensures EntryOk(c', id) {
      if id != e.debugId { assert EntryOk(c, id); }
    }
    forall id | id in c'.Table() ensures ResidentOk(c', id) { assert ResidentOk(c, id); }
  }

  lemma {:induction false} LoadUpToKeeps(c: Cache, entries: seq<ManifestEntry>, n: nat)
    requires Valid(c) && n <= |entries|
    ensures Valid(LoadUpTo(c, entries, n))
  {
    if n > 0 {
      LoadUpToKeeps(c, entries, n - 1);
      LoadKeeps(LoadUpTo(c, entries, n - 1), entries[n - 1]);
    }
  }

  /** Loading entries leaves the resident modules and the history alone. */
  lemma {:induction false} LoadUpToResident(c: Cache, entries: seq<ManifestEntry>, n: nat)
    requires n <= |entries|
    ensures var d := LoadUpTo(c, entries, n);
            d.resident == c.resident && d.log == c.log && d.parseCount == c.parseCount && d.maxBytes == c.maxBytes
  {
    if n > 0 { LoadUpToResident(c, entries, n - 1); }
  }

  lemma EntriesKeyed(c: Cache)
    requires Consistent(c)
    ensures forall id :: id in c.entries ==> c.entries[id].debugId == id
  {
    assert forall id :: id in c.entries ==> EntryOk(c, id);
  }

  lemma OnlyEvictedCounters(c: Cache, d: Cache)
    requires OnlyEvicted(c, d)
    ensures d.entries.Keys == c.entries.Keys
    ensures forall id :: id in c.entries ==> SameButCounters(d.entries[id], c.entries[id])
  {
  }
}
