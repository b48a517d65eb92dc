/**
 The debug-info cache as a value (cache/mod.rs): the resident modules in recency order, the alias
 map, the durable entries, the negative set and the byte counter. `log` is the history of what
 happened to resident modules; nothing reads it to decide anything.
 */
module Caches {

  import opened Wrappers
  import opened Ids
  import opened Frames
  import opened Manifest
  import opened Modules
  import opened Lru
  import opened Log

  /** A module held in memory: what it occupies, the rows it has answered and when it was last used. */
  datatype Resident = Resident(parsed: ParsedModule, bytes: nat, rows: nat, lastUsed: nat)

  function BytesOf(r: Resident): nat { r.bytes }

  datatype Cache = Cache(
    resident: Lru<string, Resident>,
    aliases: map<string, string>,
    entries: map<string, ManifestEntry>,
    negative: set<string>,
    maxBytes: nat,
    residentBytes: nat,
    parseCount: nat,
    log: seq<Event<string>>)
  {
    function Order(): seq<string> { resident.order }

    function Table(): map<string, Resident> { resident.table }

    /** The bytes of the resident modules, as opposed to what the counter says. */
    function TrueBytes(): nat {
      Total(resident, BytesOf)
    }

    /** `resolve_debug_id`. */
    function DebugIdOf(token: string): Option<string> {
      Lookup(aliases, CanonicalToken(token))
    }

    /** `is_resident`. */
    predicate IsResident(token: string) {
      DebugIdOf(token).Some? && DebugIdOf(token).value in Table()
    }

    /** `is_known_miss`. */
    predicate IsKnownMiss(token: string) {
      CanonicalToken(token) in negative
    }
  }

  function New(maxBytes: nat, maxModules: nat): Cache {
    Cache(Empty(Max(1, maxModules)), map[], map[], {}, maxBytes, 0, 0, [])
  }

  // ---- lookups -----------------------------------------------------------

  /** What a hit does: promote, count one row, stamp the clock. */
  function Use(c: Cache, id: string, now: nat): Cache
    requires id in c.Table()
  {
    var r := c.Table()[id];
    c.(resident := Touch(c.resident, id, r.(rows := r.rows + 1, lastUsed := now)), log := c.log + [Hit(id)])
  }

  function Resolve(c: Cache, token: string, addr: U64, limits: Limits, now: nat): (Cache, Option<seq<ResolvedFrame>>) {
    if c.IsResident(token) then
      var id := c.DebugIdOf(token).value;
      (Use(c, id, now), Some(c.Table()[id].parsed.Answer(addr, limits)))
    else (c, None)
  }

  function FunctionName(c: Cache, token: string, addr: U64, now: nat): (Cache, Option<Option<string>>) {
    if c.IsResident(token) then
      var id := c.DebugIdOf(token).value;
      (Use(c, id, now), Some(c.Table()[id].parsed.FunctionName(addr)))
    else (c, None)
  }

  // ---- misses ------------------------------------------------------------

  function MissEntry(token: string, now: nat): ManifestEntry {
    ManifestEntry(token, None, None, None, None, 0, 0, now, true)
  }

  function OrInsert<V>(m: map<string, V>, k: string, v: V): map<string, V> {
    if k in m then m else m[k := v]
  }

  function RecordMiss(c: Cache, token: string, now: nat): Cache {
    var canon := CanonicalToken(token);
    c.(aliases := OrInsert(c.aliases, canon, canon),
       negative := c.negative + {canon},
       entries := OrInsert(c.entries, canon, MissEntry(canon, now)))
  }

  // ---- insertion and eviction ----------------------------------------------

  function ParsedEntry(m: ParsedModule, origin: Origin, now: nat): ManifestEntry {
    ManifestEntry(m.DebugIdStr(), Some(origin), Some(m.Id().format.AsStr()), Some(m.Id().arch), Some(m.DisplayName()),
                  m.ResidentBytes(), 0, now, false)
  }

  /** All of `aliases` point to `id`. */
  function PointAliases<K(==), V>(before: map<K, V>, aliases: seq<K>, id: V): map<K, V> {
    before + map t | t in aliases :: id
  }

  lemma PointStep<K, V>(before: map<K, V>, aliases: seq<K>, id: V, n: nat)
    requires n < |aliases|
    ensures PointAliases(before, aliases[..n + 1], id) == PointAliases(before, aliases[..n], id)[aliases[n] := id]
  {
    assert aliases[..n + 1] == aliases[..n] + [aliases[n]];
  }

  /** The durable part of an insertion. */
  function Register(c: Cache, m: ParsedModule, origin: Origin, now: nat): Cache {
    var id := m.DebugIdStr();
    c.(parseCount := c.parseCount + 1,
       aliases := PointAliases(c.aliases, m.Id().Aliases(), id),
       negative := c.negative - {CanonicalToken(id)},
       entries := c.entries[id := ParsedEntry(m, origin, now)])
  }

  /** What the resident part of an insertion pushes out. */
  function PushedOut<K(!new)>(l: Lru<K, Resident>, id: K): seq<Event<K>> {
    if id in l.table then [Replaced(id, l.table[id].bytes)]
    else if Drops(l, id) then [Dropped(l.Oldest(), Weight(l.table, BytesOf, l.Oldest()))]
    else []
  }

  /** `put`, and the byte counter's part in it: only a replaced module's bytes are subtracted. */
  function Store(c: Cache, id: string, r: Resident): Cache {
    var kept := if id in c.Table() then SaturatingSub(c.residentBytes, c.Table()[id].bytes) else c.residentBytes;
    c.(resident := Put(c.resident, id, r),
       residentBytes := kept + r.bytes,
       log := c.log + PushedOut(c.resident, id) + [Inserted(id, r.bytes)])
  }

  /** Persist a module's live counters into its entry. */
  function FoldBack(entries: map<string, ManifestEntry>, id: string, r: Resident): map<string, ManifestEntry> {
    if id in entries then entries[id := entries[id].(rowsResolved := r.rows, lastUsed := r.lastUsed)] else entries
  }

  /** Take one module out, folding its counters back; `residentBytes` is the caller's business. */
  function TakeOut(c: Cache, id: string): Cache
    requires id in c.Table()
  {
    var r := c.Table()[id];
    c.(resident := Pop(c.resident, id), entries := FoldBack(c.entries, id, r), log := c.log + [Evicted(id, r.bytes)])
  }

  function EvictOldest(c: Cache): Cache
    requires c.Order() != [] && c.resident.Oldest() in c.Table()
  {
    var id := c.resident.Oldest();
    TakeOut(c, id).(residentBytes := SaturatingSub(c.residentBytes, c.Table()[id].bytes))
  }

  predicate OverBudget(c: Cache) {
    c.residentBytes > c.maxBytes && |c.Order()| > 1
  }

  /** `evict_to_budget`. */
  ghost function EvictToBudget(c: Cache): Cache
    requires c.resident.Ok()
    decreases |c.Order()|
  {
    if OverBudget(c) then
      PopOldestIsPop(c.resident);
      EvictToBudget(EvictOldest(c))
    else c
  }

  function FreshResident(m: ParsedModule, now: nat): Resident {
    Resident(m, m.ResidentBytes(), 0, now)
  }

  /** `insert`. */
  ghost function Insert(c: Cache, m: ParsedModule, origin: Origin, now: nat): Cache
    requires c.resident.Ok()
  {
    PutOk(c.resident, m.DebugIdStr(), FreshResident(m, now));
    EvictToBudget(Store(Register(c, m, origin, now), m.DebugIdStr(), FreshResident(m, now)))
  }

  /** `evict` of one token: the cache and the bytes freed. */
  function EvictToken(c: Cache, token: string): (Cache, nat) {
    if c.IsResident(token) then
      var id := c.DebugIdOf(token).value;
      var bytes := c.Table()[id].bytes;
      (TakeOut(c, id).(residentBytes := SaturatingSub(c.residentBytes, bytes)), bytes)
    else (c, 0)
  }

  ghost function Drain(c: Cache): Cache
    requires c.resident.Ok()
    decreases |c.Order()|
  {
    if c.Order() == [] then c
    else
      PopOldestIsPop(c.resident);
      Drain(TakeOut(c, c.resident.Oldest()))
  }

  /** `evict` of everything: the byte counter restarts at zero. */
  ghost function EvictAll(c: Cache): (Cache, nat)
    requires c.resident.Ok()
  {
    (ResetCounter(Drain(c)), c.TrueBytes())
  }

  function ResetCounter(c: Cache): Cache {
    c.(residentBytes := 0, log := c.log + [Cleared])
  }

  // ---- the manifest --------------------------------------------------------

  /** `sync_entries`: every resident module's counters are folded into its entry. */
  function Sync(c: Cache): Cache {
    c.(entries := map id | id in c.entries ::
         if id in c.Table()
         then c.entries[id].(rowsResolved := c.Table()[id].rows, lastUsed := c.Table()[id].lastUsed)
         else c.entries[id])
  }

  /** `rehydrate` with one entry. */
  function Load(c: Cache, e: ManifestEntry): Cache {
    var token := CanonicalToken(e.debugId);
    c.(aliases := c.aliases[token := e.debugId],
       negative := if e.miss then c.negative + {token} else c.negative,
       entries := c.entries[e.debugId := e])
  }

  /** `rehydrate` with the first `n` entries. */
  function LoadUpTo(c: Cache, entries: seq<ManifestEntry>, n: nat): Cache
    requires n <= |entries|
  {
    if n == 0 then c else Load(LoadUpTo(c, entries, n - 1), entries[n - 1])
  }

  function Rehydrate(c: Cache, entries: seq<ManifestEntry>): Cache {
    LoadUpTo(c, entries, |entries|)
  }

  // ---- the invariant -------------------------------------------------------

  /** The byte counter is the true total plus what was silently dropped since it was last reset. */
  ghost predicate Accounted(c: Cache) {
    c.resident.Ok() && c.residentBytes == c.TrueBytes() + DroppedBytes(c.log)
  }

  function InfoAt<K(==)>(table: map<K, Resident>, id: K): Option<Info> {
    if id in table then Some(Info(table[id].rows, table[id].bytes)) else None
  }

  /** The history is honest and says of every key exactly what the table says. */
  ghost predicate Recorded(c: Cache) {
    && Honest(c.log)
    && (forall id: string :: Live(c.log, id) == InfoAt(c.Table(), id))
    && c.parseCount == InsertedCount(c.log)
  }

  predicate IsCanonical(token: string) {
    CanonicalToken(token) == token
  }

  ghost predicate EntryOk(c: Cache, id: string)
    requires id in c.entries
  {
    c.entries[id].debugId == id
  }

  ghost predicate ResidentOk(c: Cache, id: string)
    requires id in c.Table()
  {
    var r := c.Table()[id];
    && id in c.entries
    && r.parsed.DebugIdStr() == id && r.bytes == r.parsed.ResidentBytes()
  }

  /** Every entry is stored under its own debug-id; resident modules and alias targets have entries. */
  ghost predicate Consistent(c: Cache) {
    && (forall id :: id in c.entries ==> EntryOk(c, id))
    && (forall id :: id in c.Table() ==> ResidentOk(c, id))
    && (forall t :: t in c.aliases ==> c.aliases[t] in c.entries)
  }

  /** Entries and misses agree: every miss entry is a known miss, every known miss a canonical entry key. */
  ghost predicate InStep(c: Cache) {
    && (forall id :: id in c.entries && c.entries[id].miss ==> id in c.negative)
    && (forall t :: t in c.negative ==> t in c.entries && IsCanonical(t))
  }

  /** As long as no foreign manifest is imported, every entry key is canonical as well. */
  ghost predicate Keyed(c: Cache) {
    InStep(c) && forall id :: id in c.entries ==> IsCanonical(id)
  }

  ghost predicate Valid(c: Cache) {
    Accounted(c) && Recorded(c) && Consistent(c)
  }
}
